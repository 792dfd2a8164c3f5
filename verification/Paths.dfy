/** Splitting a text at a separator and joining it again. */
module Splitting {

  function Split(s: string, c: char): (r: seq<string>)
    ensures |r| >= 1
    ensures forall seg | seg in r :: c !in seg
  {
    if s == "" then [""]
    else
      var n := |s| - 1;
      var r := Split(s[..n], c);
      var k := |r| - 1;
      if s[n] == c then r + [""]
      else
        assert r[k] in r;
        r[..k] + [r[k] + [s[n]]]
  }

  function Join(segs: seq<string>, c: char): string
    requires |segs| >= 1
  {
    if |segs| == 1 then segs[0] else Join(segs[..|segs| - 1], c) + [c] + segs[|segs| - 1]
  }

  lemma JoinSnoc(segs: seq<string>, seg: string, c: char)
    requires |segs| >= 1
    ensures Join(segs + [seg], c) == Join(segs, c) + [c] + seg
  {
    assert (segs + [seg])[..|segs|] == segs;
  }

  lemma SplitSnoc(s: string, x: char, c: char)
    ensures
      var r := Split(s, c);
      Split(s + [x], c) == if x == c then r + [""] else r[..|r| - 1] + [r[|r| - 1] + [x]]
  {
    assert (s + [x])[..|s|] == s;
  }

  lemma JoinExtend(r: seq<string>, x: char, c: char)
    requires |r| >= 1
    ensures Join(r[..|r| - 1] + [r[|r| - 1] + [x]], c) == Join(r, c) + [x]
  {
    var k := |r| - 1;
    if k == 0 {
      assert r[..0] + [r[0] + [x]] == [r[0] + [x]];
    } else {
      JoinSnoc(r[..k], r[k], c);
      JoinSnoc(r[..k], r[k] + [x], c);
      assert r == r[..k] + [r[k]];
    }
  }

  /** Joining the pieces gives the text back. */
  lemma {:induction false} JoinSplit(s: string, c: char)
    ensures Join(Split(s, c), c) == s
  {
    hide Join, Split;
    if s == "" {
      SplitPlain("", c);
      JoinOne("", c);
    } else {
      var n := |s| - 1;
      JoinSplit(s[..n], c);
      assert s == s[..n] + [s[n]];
      SplitSnoc(s[..n], s[n], c);
      JoinSnoc(Split(s[..n], c), "", c);
      JoinExtend(Split(s[..n], c), s[n], c);
    }
  }

  lemma JoinOne(s: string, c: char)
    ensures Join([s], c) == s
  {
  }

  lemma {:induction false} SplitLast(s: string, seg: string, c: char)
    requires c !in seg
    ensures Split(s + [c] + seg, c) == Split(s, c) + [seg]
  {
    hide Split;
    var r := Split(s, c);
    if seg == "" {
      SplitSnoc(s, c, c);
      assert s + [c] + "" == s + [c];
    } else {
      var n := |seg| - 1;
      SplitLast(s, seg[..n], c);
      assert s + [c] + seg == s + [c] + seg[..n] + [seg[n]];
      SplitSnoc(s + [c] + seg[..n], seg[n], c);
      assert seg == seg[..n] + [seg[n]] && (r + [seg[..n]])[..|r|] == r;
    }
  }

  lemma SplitEmpty(c: char)
    ensures Split("", c) == [""]
  {
  }

  lemma {:induction false} SplitPlain(s: string, c: char)
    requires c !in s
    ensures Split(s, c) == [s]
  {
    hide Split;
    if s == "" {
      SplitEmpty(c);
    } else {
      var n := |s| - 1;
      SplitPlain(s[..n], c);
      assert s == s[..n] + [s[n]] && [s[..n]][..0] == [];
      SplitSnoc(s[..n], s[n], c);
    }
  }

  /** Splitting what was joined gives the pieces back, if none holds the separator. */
  lemma {:induction false} SplitJoin(segs: seq<string>, c: char)
    requires |segs| >= 1 && forall seg | seg in segs :: c !in seg
    ensures Split(Join(segs, c), c) == segs
  {
    hide Split, Join;
    if |segs| == 1 {
      SplitPlain(segs[0], c);
      JoinOne(segs[0], c);
      assert segs == [segs[0]];
    } else {
      var n := |segs| - 1;
      SplitJoin(segs[..n], c);
      JoinSnoc(segs[..n], segs[n], c);
      assert segs == segs[..n] + [segs[n]];
      SplitLast(Join(segs[..n], c), segs[n], c);
    }
  }
}

/** Route paths: their normal form, and when a route pattern matches a call. */
module Routes {
  import opened Text
  import opened Splitting

  const PARAM: string := "{*}"
  const REST: string := "{**}"

  function TrimSlash(p: string): (r: string) {
    if p != "" && p[|p| - 1] == '/' then p[..|p| - 1] else p
  }

  function NormalSegment(s: string): (r: string)
    ensures '/' !in s ==> '/' !in r
  {
    if s == "*" then REST
    else if s != "" && s[0] == '{' && s[|s| - 1] == '}' then PARAM
    else if '{' in s then PARAM
    else s
  }

  function NormalSegments(segs: seq<string>): (r: seq<string>)
    ensures |r| == |segs| && forall i | 0 <= i < |segs| :: r[i] == NormalSegment(segs[i])
  {
    seq(|segs|, i requires 0 <= i < |segs| => NormalSegment(segs[i]))
  }

  function Normal(p: string): string {
    var out := Join(NormalSegments(Split(TrimSlash(p), '/')), '/');
    if out == "" then "/" else out
  }

  method NormalizePath(p: string) returns (out: string)
    ensures out == Normal(p)
  {
    var parts := Split(TrimSlash(p), '/');
    var segs := new string[|parts|](i requires 0 <= i < |parts| => parts[i]);
    for i := 0 to segs.Length
      invariant forall k | 0 <= k < i :: segs[k] == NormalSegment(parts[k])
      invariant forall k | i <= k < segs.Length :: segs[k] == parts[k]
    {
      var s := segs[i];
      if s == "*" {
        segs[i] := REST;
      } else if s != "" && s[0] == '{' && s[|s| - 1] == '}' {
        segs[i] := PARAM;
      } else if '{' in s {
        segs[i] := PARAM;
      }
    }
    assert segs[..] == NormalSegments(parts);
    out := Join(segs[..], '/');
    if out == "" {
      out := "/";
    }
  }

  /** The segments of a path; the root is written with two empty ones. */
  function Segments(p: string): (r: seq<string>)
    ensures |r| >= 1 && forall s | s in r :: '/' !in s
  {
    if TrimSlash(p) == "" then ["", ""] else Split(TrimSlash(p), '/')
  }

  /** A normal form's segments are the normal forms of the segments. */
  lemma SegmentsOfNormal(p: string)
    ensures Split(Normal(p), '/') == NormalSegments(Segments(p))
  {
    hide Split, Join;
    var q := TrimSlash(p);
    var parts := Split(q, '/');
    var segs := NormalSegments(parts);
    forall s | s in segs ensures '/' !in s {
      var i :| 0 <= i < |segs| && segs[i] == s;
      assert parts[i] in parts;
    }
    SplitJoin(segs, '/');
    JoinSplit(q, '/');
    SplitLast("", "", '/');
    SplitPlain("", '/');
    assert "" + ['/'] + "" == "/" && [""] + [""] == ["", ""];
    if q == "" {
      assert Join([""], '/') == "" by { JoinOne("", '/'); }
      assert segs == [""];
      assert NormalSegments(["", ""]) == ["", ""];
    } else {
      NotRoot(p);
    }
  }

  // ---- Normalising twice ----

  /** No wildcard segment, and no slash left at the end after trimming one (the root aside). */
  predicate Settled(p: string) {
    var q := TrimSlash(p);
    "*" !in Split(q, '/') && (q == "" || q == "/" || q[|q| - 1] != '/')
  }

  /** A path that does not end in a slash has a non-empty last segment, and back. */
  lemma LastSegment(q: string)
    requires q != ""
    ensures
      var r := Split(q, '/');
      q[|q| - 1] == '/' <==> r[|r| - 1] == ""
  {
  }

  lemma NormalSegmentTwice(s: string)
    ensures NormalSegment(NormalSegment(s)) == NormalSegment(s) <==> s != "*"
    ensures NormalSegment(s) == "" <==> s == ""
    ensures NormalSegment(s) == REST <==> s == "*"
    ensures NormalSegment(s) == PARAM <==> '{' in s
  {
    if '{' in s && s != "*" { assert '{' in PARAM; }
    assert '{' in REST && '{' !in "*";
  }

  lemma SegmentsAgree(a: seq<string>, b: seq<string>)
    requires |a| >= 1 && |b| >= 1
    requires (forall s | s in a :: '/' !in s) && (forall s | s in b :: '/' !in s)
    ensures Join(a, '/') == Join(b, '/') ==> a == b
  {
    hide Split, Join;
    SplitJoin(a, '/');
    SplitJoin(b, '/');
  }

  lemma NormalKeepsNoSlash(segs: seq<string>)
    requires forall s | s in segs :: '/' !in s
    ensures forall s | s in NormalSegments(segs) :: '/' !in s
  {
    forall s | s in NormalSegments(segs) ensures '/' !in s {
      var i :| 0 <= i < |segs| && NormalSegments(segs)[i] == s;
      assert segs[i] in segs;
    }
  }

  /** Normalising the segments again changes nothing exactly when none was the wildcard. */
  lemma SegmentsTwice(segs: seq<string>)
    ensures NormalSegments(NormalSegments(segs)) == NormalSegments(segs) <==> "*" !in segs
  {
    forall i | 0 <= i < |segs| { NormalSegmentTwice(segs[i]); }
    if "*" in segs {
      var i :| 0 <= i < |segs| && segs[i] == "*";
      assert NormalSegments(NormalSegments(segs))[i] != NormalSegments(segs)[i];
    }
  }

  /** Normalising twice is normalising once exactly on settled paths. */
  lemma NormalTwiceIff(p: string)
    ensures Normal(Normal(p)) == Normal(p) <==> Settled(p)
  {
    hide Split, Join, NormalSegment;
    var q := TrimSlash(p);
    var parts := Split(q, '/');
    var n := NormalSegments(parts);
    var k := |parts| - 1;
    NormalKeepsNoSlash(parts);
    SegmentsOfNormal(p);
    JoinSplit(q, '/');
    if q == "" || q == "/" {
      RootIsNormal(p);
    } else {
      LastSegment(q);
      NormalSegmentTwice(parts[k]);
      NotRoot(p);
      assert Split(Normal(p), '/') == n;
      LastSegment(Normal(p));
      if q[|q| - 1] == '/' {
        TrailingSlash(p);
      } else {
        assert TrimSlash(Normal(p)) == Normal(p);
        SegmentsTwice(parts);
        JoinSplit(Normal(p), '/');
        NormalKeepsNoSlash(n);
        SegmentsAgree(NormalSegments(n), n);
        JoinNotEmpty(NormalSegments(n));
      }
    }
  }

  lemma JoinNotEmpty(segs: seq<string>)
    requires |segs| >= 1
    ensures |segs| > 1 ==> Join(segs, '/') != ""
    ensures Join(segs, '/') == "" ==> segs == [""]
  {
  }

  lemma RootIsNormal(p: string)
    requires TrimSlash(p) == "" || TrimSlash(p) == "/"
    ensures Normal(p) == "/" && Normal(Normal(p)) == "/" && Settled(p)
  {
    hide Split, Join;
    SplitPlain("", '/');
    SplitLast("", "", '/');
    assert "" + ['/'] + "" == "/" && [""] + [""] == ["", ""];
    assert Split("", '/') == [""] && Split("/", '/') == ["", ""];
    assert NormalSegments([""]) == [""] && NormalSegments(["", ""]) == ["", ""];
    JoinOne("", '/');
    JoinSplit("/", '/');
  }

  lemma NotRoot(p: string)
    requires TrimSlash(p) != ""
    ensures Normal(p) == Join(NormalSegments(Split(TrimSlash(p), '/')), '/') && Normal(p) != ""
  {
    hide Split, NormalSegment;
    var parts := Split(TrimSlash(p), '/');
    JoinSplit(TrimSlash(p), '/');
    JoinNotEmpty(NormalSegments(parts));
    NormalSegmentTwice(parts[0]);
  }

  /** A path that still ends in a slash loses a segment when it is normalised again. */
  lemma TrailingSlash(p: string)
    requires
      var q := TrimSlash(p);
      q != "" && q != "/" && q[|q| - 1] == '/'
    ensures Normal(Normal(p)) != Normal(p)
  {
    hide Split, Join, NormalSegment;
    var q := TrimSlash(p);
    var n := NormalSegments(Split(q, '/'));
    SegmentsOfNormal(p);
    SegmentsOfNormal(Normal(p));
    NotRoot(p);
    LastSegment(q);
    NormalSegmentTwice(Split(q, '/')[|n| - 1]);
    LastSegment(Normal(p));
    var t := TrimSlash(Normal(p));
    assert Normal(p) == t + ['/'] + "";
    SplitLast(t, "", '/');
    if t == "" {
      SlashOnly(q);
    } else {
      assert |NormalSegments(Segments(Normal(p)))| == |n| - 1;
    }
  }

  lemma SlashOnly(q: string)
    requires q != ""
    ensures Join(NormalSegments(Split(q, '/')), '/') == "/" ==> q == "/"
  {
    hide Split, Join, NormalSegment;
    var parts := Split(q, '/');
    var n := NormalSegments(parts);
    NormalKeepsNoSlash(parts);
    JoinSplit(q, '/');
    JoinSplit("/", '/');
    SplitPlain("", '/');
    SplitLast("", "", '/');
    assert "" + ['/'] + "" == "/" && [""] + [""] == ["", ""];
    SegmentsAgree(n, ["", ""]);
    if n == ["", ""] {
      NormalSegmentTwice(parts[0]);
      NormalSegmentTwice(parts[1]);
      assert parts == ["", ""];
    }
  }

  /** The wildcard's own normal form is taken for a parameter the second time. */
  lemma WildcardTwice()
    ensures Normal("/exports/*") == "/exports/{**}" && Normal("/exports/{**}") == "/exports/{*}"
  {
    hide Normal, NormalSegment;
    NormalOfTwo("exports", "*");
    NormalOfTwo("exports", REST);
    assert '{' !in "exports" && '{' in REST;
    PlainSegment("exports");
    NormalSegmentTwice(REST);
    HeadedBy("/" + "exports" + "/");
  }

  lemma HeadedBy(head: string)
    requires head == "/exports/"
    ensures head + "*" == "/exports/*" && head + REST == "/exports/{**}" && head + PARAM == "/exports/{*}"
  {
  }

  lemma NormalOfTwo(a: string, b: string)
    requires '/' !in a && '/' !in b && b != ""
    ensures Normal("/" + a + "/" + b) == "/" + NormalSegment(a) + "/" + NormalSegment(b)
  {
    hide Split, Join, NormalSegment;
    var q := "/" + a + "/" + b;
    SplitPlain("", '/');
    SplitLast("", a, '/');
    assert "" + ['/'] + a == "/" + a;
    SplitLast("/" + a, b, '/');
    assert Split(q, '/') == [""] + [a] + [b];
    assert q[|q| - 1] == b[|b| - 1] && b[|b| - 1] in b;
    var n := NormalSegments(Split(q, '/'));
    NormalSegmentTwice("");
    assert n == [""] + [NormalSegment(a)] + [NormalSegment(b)];
    JoinOne("", '/');
    JoinSnoc([""], NormalSegment(a), '/');
    JoinSnoc([""] + [NormalSegment(a)], NormalSegment(b), '/');
  }

  // ---- Matching ----

  /** Where the first wildcard of a normalised route stands, or the route's length. */
  function RestAt(rs: seq<string>): (w: nat)
    ensures w <= |rs| && (w < |rs| ==> rs[w] == REST)
    ensures forall i | 0 <= i < w :: rs[i] != REST
  {
    if rs == [] then 0
    else
      var w := RestAt(rs[..|rs| - 1]);
      if w == |rs| - 1 && rs[w] != REST then |rs| else w
  }

  predicate Agree(r: string, c: string) { r == PARAM || c == PARAM || r == c }

  /** The call has every segment before the wildcard, each agreeing, and without a wildcard no more. */
  ghost predicate Matches(rs: seq<string>, cs: seq<string>) {
    var w := RestAt(rs);
    && w <= |cs| && (w == |rs| ==> |cs| == |rs|)
    && forall i | 0 <= i < w :: Agree(rs[i], cs[i])
  }

  method PathsMatch(route: string, call: string) returns (ok: bool)
    ensures ok <==> Matches(Split(route, '/'), Split(call, '/'))
  {
    hide Split;
    var rs, cs := Split(route, '/'), Split(call, '/');
    for i := 0 to |rs|
      invariant i <= RestAt(rs) && i <= |cs|
      invariant forall k | 0 <= k < i :: Agree(rs[k], cs[k])
    {
      var r := rs[i];
      if r == REST {
        return true;
      }
      if i >= |cs| {
        return false;
      }
      if r == PARAM || cs[i] == PARAM {
        continue;
      }
      if r != cs[i] {
        return false;
      }
    }
    return |rs| == |cs|;
  }

  /** The first `*` of a route's segments, or their number. */
  function StarAt(segs: seq<string>): (w: nat)
    ensures w <= |segs| && (w < |segs| ==> segs[w] == "*")
    ensures forall i | 0 <= i < w :: segs[i] != "*"
  {
    if segs == [] then 0
    else
      var w := StarAt(segs[..|segs| - 1]);
      if w == |segs| - 1 && segs[w] != "*" then |segs| else w
  }

  /**
   The call is the route with each parameter segment filled in, and anything after its `*`. A
   segment with a brace in it is a parameter.
   */
  ghost predicate IsInstance(route: seq<string>, call: seq<string>) {
    var w := StarAt(route);
    && w <= |call| && (w == |route| ==> |call| == |route|)
    && forall i | 0 <= i < w :: '{' in route[i] || route[i] == call[i]
  }

  /** The segments of an actual request: no slash in them, and nothing left to fill in. */
  ghost predicate IsRequest(x: seq<string>) {
    forall s | s in x :: '{' !in s && '/' !in s
  }

  /** The request is the call with each of its parameter segments filled in. */
  ghost predicate Fills(call: seq<string>, x: seq<string>) {
    |x| == |call| && forall i | 0 <= i < |call| :: '{' in call[i] || x[i] == call[i]
  }

  /** Some request is an instance of the route and a filling of the call. */
  ghost predicate ShareRequest(route: seq<string>, call: seq<string>) {
    exists x :: IsRequest(x) && IsInstance(route, x) && Fills(call, x)
  }

  ghost predicate Matching(route: string, call: string) {
    Matches(Split(Normal(route), '/'), Split(Normal(call), '/'))
  }

  /** What matching says of the segments, before they are normalised. */
  lemma MatchingSegments(route: string, call: string)
    ensures
      var (r, c) := (Segments(route), Segments(call));
      var w := StarAt(r);
      Matching(route, call) <==>
        && w <= |c| && (w == |r| ==> |c| == |r|)
        && forall i | 0 <= i < w :: '{' in r[i] || '{' in c[i] || r[i] == c[i]
  {
    hide Split, Normal, Segments, NormalSegment;
    var r, c := Segments(route), Segments(call);
    SegmentsOfNormal(route);
    SegmentsOfNormal(call);
    FirstsAgree(r);
    forall i | 0 <= i < StarAt(r) && i < |c|
      ensures Agree(NormalSegment(r[i]), NormalSegment(c[i])) <==> '{' in r[i] || '{' in c[i] || r[i] == c[i]
    {
      OneSegment(r[i], c[i]);
    }
  }

  /** A route matches every instance of itself, whatever fills its parameters and its wildcard. */
  lemma InstanceMatches(route: string, call: string)
    requires IsInstance(Segments(route), Segments(call))
    ensures Matching(route, call)
  {
    hide Matching, Segments;
    MatchingSegments(route, call);
  }

  /** A request both sides agree on: the call where it is fixed, else the route, else anything. */
  function Witness(route: seq<string>, call: seq<string>): (x: seq<string>)
    ensures |x| == |call|
  {
    seq(|call|, i requires 0 <= i < |call| =>
      if '{' !in call[i] then call[i]
      else if i < StarAt(route) && '{' !in route[i] then route[i]
      else "x")
  }

  /**
   For every route and every call, parameters on either side included: the normal forms match
   exactly when some actual request is an instance of the route and a filling of the call.
   */
  lemma MatchingIffShareRequest(route: string, call: string)
    ensures Matching(route, call) <==> ShareRequest(Segments(route), Segments(call))
  {
    var r, c := Segments(route), Segments(call);
    MatchingSegments(route, call);
    hide Matching, Segments;
    if Matching(route, call) {
      var x := Witness(r, c);
      forall s | s in x ensures '{' !in s && '/' !in s {
        var i :| 0 <= i < |x| && x[i] == s;
        assert c[i] in c && (i < StarAt(r) ==> r[i] in r);
      }
      assert IsRequest(x) && IsInstance(r, x) && Fills(c, x);
    }
    if ShareRequest(r, c) {
      var x :| IsRequest(x) && IsInstance(r, x) && Fills(c, x);
    }
  }

  /** A call without parameters has one filling, itself: it matches exactly when it is an instance. */
  lemma MatchingIffInstance(route: string, call: string)
    requires IsRequest(Segments(call))
    ensures Matching(route, call) <==> IsInstance(Segments(route), Segments(call))
  {
    hide Matching, Segments, IsInstance;
    var r, c := Segments(route), Segments(call);
    MatchingIffShareRequest(route, call);
    forall x | IsRequest(x) && Fills(c, x) ensures x == c {
      forall i | 0 <= i < |c| ensures x[i] == c[i] { assert c[i] in c; }
    }
    assert Fills(c, c);
  }

  lemma FirstsAgree(segs: seq<string>)
    ensures RestAt(NormalSegments(segs)) == StarAt(segs)
  {
    hide NormalSegment;
    var n := NormalSegments(segs);
    var w, v := RestAt(n), StarAt(segs);
    if w < |segs| { NormalSegmentTwice(segs[w]); }
    if v < |segs| { NormalSegmentTwice(segs[v]); }
  }

  lemma OneSegment(r: string, c: string)
    requires r != "*"
    ensures Agree(NormalSegment(r), NormalSegment(c)) <==> '{' in r || '{' in c || r == c
  {
    hide NormalSegment;
    NormalSegmentTwice(r);
    NormalSegmentTwice(c);
    PlainSegment(r);
    PlainSegment(c);
    assert '{' in REST;
  }

  lemma PlainSegment(s: string)
    ensures '{' !in s && s != "*" ==> NormalSegment(s) == s
    ensures NormalSegment("*") == REST
  {
  }

  // ---- Cross-referencing routes and calls ----

  datatype Route = Route(verb: string, path: string)
  datatype FrontendCall = FrontendCall(verb: string, path: string)
  datatype Feature = Feature(id: string, routes: seq<string>)
  datatype Claim = Claim(verb: string, path: string, id: string)
  datatype MatchRow = MatchRow(route: Route, callers: seq<FrontendCall>, features: seq<string>)
  datatype Coverage = Coverage(matched: seq<MatchRow>, backendOnly: seq<MatchRow>, frontendOnly: seq<FrontendCall>)

  /** A websocket call reaches a route registered for GET. */
  predicate Compatible(rt: Route, c: FrontendCall) {
    rt.verb == "ANY" || c.verb == rt.verb || (c.verb == "WS" && rt.verb == "GET")
  }

  ghost predicate Reaches(rt: Route, c: FrontendCall) {
    Compatible(rt, c) && Matching(rt.path, c.path)
  }

  ghost predicate Claims(rt: Route, cl: Claim) {
    (cl.verb == rt.verb || rt.verb == "ANY" || cl.verb == "ANY") &&
    Matches(Split(Normal(rt.path), '/'), Split(cl.path, '/'))
  }

  /** The claim of one route entry: what stands before and after its first blank. */
  function ClaimOf(id: string, spec: string): seq<Claim> {
    match Index(spec, " ")
    case None => []
    case Some(k) => [Claim(spec[..k], Normal(spec[k + 1..]), id)]
  }

  function ClaimsOf(id: string, specs: seq<string>): seq<Claim> {
    if specs == [] then [] else ClaimsOf(id, specs[..|specs| - 1]) + ClaimOf(id, specs[|specs| - 1])
  }

  function AllClaims(features: seq<Feature>): seq<Claim> {
    if features == [] then []
    else
      var f := features[|features| - 1];
      AllClaims(features[..|features| - 1]) + ClaimsOf(f.id, f.routes)
  }

  ghost function Callers(rt: Route, calls: seq<FrontendCall>): seq<FrontendCall> {
    if calls == [] then []
    else
      var c := calls[|calls| - 1];
      var before := Callers(rt, calls[..|calls| - 1]);
      if Reaches(rt, c) then before + [c] else before
  }

  ghost function Claimants(rt: Route, claims: seq<Claim>): seq<string> {
    if claims == [] then []
    else
      var cl := claims[|claims| - 1];
      var before := Claimants(rt, claims[..|claims| - 1]);
      if Claims(rt, cl) then before + [cl.id] else before
  }

  ghost function RowOf(rt: Route, calls: seq<FrontendCall>, claims: seq<Claim>): MatchRow {
    MatchRow(rt, Callers(rt, calls), Claimants(rt, claims))
  }

  /** The rows of the routes with a caller, or of those without one. */
  ghost function Rows(routes: seq<Route>, calls: seq<FrontendCall>, claims: seq<Claim>, called: bool): seq<MatchRow> {
    if routes == [] then []
    else
      var row := RowOf(routes[|routes| - 1], calls, claims);
      var before := Rows(routes[..|routes| - 1], calls, claims, called);
      if (row.callers != []) == called then before + [row] else before
  }

  ghost predicate Reached(routes: seq<Route>, c: FrontendCall) {
    exists rt :: rt in routes && Reaches(rt, c)
  }

  ghost function Unreached(routes: seq<Route>, calls: seq<FrontendCall>): seq<FrontendCall> {
    if calls == [] then []
    else
      var c := calls[|calls| - 1];
      var before := Unreached(routes, calls[..|calls| - 1]);
      if Reached(routes, c) then before else before + [c]
  }

  method ClaimsFor(f: Feature) returns (claims: seq<Claim>)
    ensures claims == ClaimsOf(f.id, f.routes)
  {
    hide Normal, Index;
    claims := [];
    for j := 0 to |f.routes|
      invariant claims == ClaimsOf(f.id, f.routes[..j])
    {
      var spec := f.routes[j];
      assert f.routes[..j + 1][..j] == f.routes[..j];
      var at := Index(spec, " ");
      if at.Some? {
        var path := NormalizePath(spec[at.value + 1..]);
        claims := claims + [Claim(spec[..at.value], path, f.id)];
      }
    }
    assert f.routes[..|f.routes|] == f.routes;
  }

  method CollectClaims(features: seq<Feature>) returns (claims: seq<Claim>)
    ensures claims == AllClaims(features)
  {
    hide ClaimsOf;
    claims := [];
    for i := 0 to |features|
      invariant claims == AllClaims(features[..i])
    {
      assert features[..i + 1][..i] == features[..i];
      var more := ClaimsFor(features[i]);
      claims := claims + more;
    }
    assert features[..|features|] == features;
  }

  /** The row of one route, and which calls it uses. */
  method RowFor(rt: Route, calls: seq<FrontendCall>, claims: seq<Claim>, usedCall: array<bool>) returns (row: MatchRow)
    requires usedCall.Length == |calls|
    modifies usedCall
    ensures row == RowOf(rt, calls, claims)
    ensures forall k | 0 <= k < |calls| :: usedCall[k] == (old(usedCall[k]) || Reaches(rt, calls[k]))
  {
    hide Matches, Normal, Split;
    var np := NormalizePath(rt.path);
    row := MatchRow(rt, [], []);
    for ci := 0 to |calls|
      invariant row.route == rt && row.features == [] && row.callers == Callers(rt, calls[..ci])
      invariant forall k | 0 <= k < ci :: usedCall[k] == (old(usedCall[k]) || Reaches(rt, calls[k]))
      invariant forall k | ci <= k < |calls| :: usedCall[k] == old(usedCall[k])
    {
      var c := calls[ci];
      assert calls[..ci + 1][..ci] == calls[..ci];
      if rt.verb != "ANY" && c.verb != rt.verb {
        if !(c.verb == "WS" && rt.verb == "GET") {
          continue;
        }
      }
      var cp := NormalizePath(c.path);
      var hit := PathsMatch(np, cp);
      if hit {
        row := row.(callers := row.callers + [c]);
        usedCall[ci] := true;
      }
    }
    assert calls[..|calls|] == calls;
    for k := 0 to |claims|
      invariant row == MatchRow(rt, Callers(rt, calls), Claimants(rt, claims[..k]))
      invariant forall j | 0 <= j < |calls| :: usedCall[j] == (old(usedCall[j]) || Reaches(rt, calls[j]))
    {
      var cl := claims[k];
      assert claims[..k + 1][..k] == claims[..k];
      var hit := false;
      if cl.verb == rt.verb || rt.verb == "ANY" || cl.verb == "ANY" {
        hit := PathsMatch(np, cl.path);
      }
      if hit {
        row := row.(features := row.features + [cl.id]);
      }
    }
    assert claims[..|claims|] == claims;
  }

  /** Byte-wise string order, which is code-point order. */
  predicate PathLe(a: string, b: string) {
    a == "" || (b != "" && (a[0] < b[0] || (a[0] == b[0] && PathLe(a[1..], b[1..]))))
  }

  lemma {:induction false} PathLeTotal(a: string, b: string)
    ensures PathLe(a, b) || PathLe(b, a)
  {
    if a != "" && b != "" { PathLeTotal(a[1..], b[1..]); }
  }

  lemma {:induction false} PathLeTransitive(a: string, b: string, c: string)
    requires PathLe(a, b) && PathLe(b, c)
    ensures PathLe(a, c)
  {
    if a != "" && a[0] == b[0] == c[0] { PathLeTransitive(a[1..], b[1..], c[1..]); }
  }

  ghost predicate SortedByPath(calls: seq<FrontendCall>) {
    forall i, j | 0 <= i < j < |calls| :: PathLe(calls[i].path, calls[j].path)
  }

  /** Where the library sort puts calls of equal path is its own affair; here they keep their order. */
  function Inserted(calls: seq<FrontendCall>, c: FrontendCall): (r: seq<FrontendCall>)
    ensures multiset(r) == multiset(calls) + multiset{c}
  {
    if calls == [] then [c]
    else
      var n := |calls| - 1;
      assert calls == calls[..n] + [calls[n]];
      if PathLe(calls[n].path, c.path) then calls + [c] else Inserted(calls[..n], c) + [calls[n]]
  }

  lemma {:induction false} InsertedIsSorted(calls: seq<FrontendCall>, c: FrontendCall)
    requires SortedByPath(calls)
    ensures SortedByPath(Inserted(calls, c))
  {
    hide PathLe;
    if calls != [] {
      var n := |calls| - 1;
      var last := calls[n];
      if PathLe(last.path, c.path) {
        forall i | 0 <= i < |calls| ensures PathLe(calls[i].path, c.path) {
          if i < n { PathLeTransitive(calls[i].path, last.path, c.path); }
        }
      } else {
        PathLeTotal(c.path, last.path);
        InsertedIsSorted(calls[..n], c);
        var before := Inserted(calls[..n], c);
        forall i | 0 <= i < |before| ensures PathLe(before[i].path, last.path) {
          assert before[i] in multiset(before);
          assert before[i] == c || before[i] in calls[..n];
        }
      }
    }
  }

  method SortByPath(calls: seq<FrontendCall>) returns (sorted: seq<FrontendCall>)
    ensures multiset(sorted) == multiset(calls) && SortedByPath(sorted)
  {
    hide Inserted, PathLe;
    sorted := [];
    for i := 0 to |calls|
      invariant multiset(sorted) == multiset(calls[..i]) && SortedByPath(sorted)
    {
      InsertedIsSorted(sorted, calls[i]);
      assert calls[..i + 1] == calls[..i] + [calls[i]];
      sorted := Inserted(sorted, calls[i]);
    }
    assert calls[..|calls|] == calls;
  }

  method CrossReference(routes: seq<Route>, calls: seq<FrontendCall>, features: seq<Feature>) returns (cov: Coverage)
    ensures
      var claims := AllClaims(features);
      && cov.matched == Rows(routes, calls, claims, true)
      && cov.backendOnly == Rows(routes, calls, claims, false)
      && multiset(cov.frontendOnly) == multiset(Unreached(routes, calls)) && SortedByPath(cov.frontendOnly)
  {
    hide Reaches, RowOf, AllClaims;
    var claims := CollectClaims(features);
    var usedCall := new bool[|calls|](_ => false);
    var matched, backendOnly := [], [];
    for i := 0 to |routes|
      invariant matched == Rows(routes[..i], calls, claims, true)
      invariant backendOnly == Rows(routes[..i], calls, claims, false)
      invariant forall k | 0 <= k < |calls| :: usedCall[k] == Reached(routes[..i], calls[k])
    {
      assert routes[..i + 1][..i] == routes[..i] && routes[..i + 1] == routes[..i] + [routes[i]];
      var row := RowFor(routes[i], calls, claims, usedCall);
      if |row.callers| > 0 {
        matched := matched + [row];
      } else {
        backendOnly := backendOnly + [row];
      }
    }
    assert routes[..|routes|] == routes;
    var frontendOnly := [];
    for ci := 0 to |calls|
      invariant frontendOnly == Unreached(routes, calls[..ci])
    {
      assert calls[..ci + 1][..ci] == calls[..ci];
      if !usedCall[ci] {
        frontendOnly := frontendOnly + [calls[ci]];
      }
    }
    assert calls[..|calls|] == calls;
    frontendOnly := SortByPath(frontendOnly);
    cov := Coverage(matched, backendOnly, frontendOnly);
  }

  // ---- The three lists cover everything once ----

  ghost function RoutesOf(rows: seq<MatchRow>): multiset<Route> {
    if rows == [] then multiset{}
    else RoutesOf(rows[..|rows| - 1]) + multiset{rows[|rows| - 1].route}
  }

  lemma RoutesOfSnoc(rows: seq<MatchRow>, row: MatchRow)
    ensures RoutesOf(rows + [row]) == RoutesOf(rows) + multiset{row.route}
  {
    assert (rows + [row])[..|rows|] == rows;
  }

  /** Each route is in exactly one of matched and backend-only, as often as it is registered. */
  lemma {:induction false} RoutesPartition(routes: seq<Route>, calls: seq<FrontendCall>, claims: seq<Claim>)
    ensures RoutesOf(Rows(routes, calls, claims, true)) + RoutesOf(Rows(routes, calls, claims, false)) ==
            multiset(routes)
  {
    hide RowOf, RoutesOf;
    if routes == [] {
      assert RoutesOf([]) == multiset{} by { NoRoutes(); }
    } else {
      var n := |routes| - 1;
      RoutesPartition(routes[..n], calls, claims);
      assert routes == routes[..n] + [routes[n]];
      var row := RowOf(routes[n], calls, claims);
      assert row.route == routes[n] by { RowRoute(routes[n], calls, claims); }
      RoutesOfSnoc(Rows(routes[..n], calls, claims, row.callers != []), row);
    }
  }

  lemma NoRoutes()
    ensures RoutesOf([]) == multiset{}
  {
  }

  lemma RowRoute(rt: Route, calls: seq<FrontendCall>, claims: seq<Claim>)
    ensures RowOf(rt, calls, claims).route == rt
  {
  }

  lemma {:induction false} CallersAre(rt: Route, calls: seq<FrontendCall>)
    ensures forall c :: c in Callers(rt, calls) <==> c in calls && Reaches(rt, c)
  {
    hide Reaches;
    if calls != [] {
      var n := |calls| - 1;
      CallersAre(rt, calls[..n]);
      assert calls == calls[..n] + [calls[n]];
    }
  }

  /** A route's row is in the matched list exactly when some call reaches the route. */
  lemma {:induction false} MatchedIffCalled(routes: seq<Route>, calls: seq<FrontendCall>, claims: seq<Claim>, rt: Route)
    requires rt in routes
    ensures RowOf(rt, calls, claims) in Rows(routes, calls, claims, true) <==> exists c :: c in calls && Reaches(rt, c)
    ensures RowOf(rt, calls, claims) in Rows(routes, calls, claims, false) <==>
            !exists c :: c in calls && Reaches(rt, c)
  {
    hide Reaches, Callers, Claimants;
    CallersAre(rt, calls);
    var row := RowOf(rt, calls, claims);
    assert row.callers != [] <==> exists c :: c in calls && Reaches(rt, c) by {
      if row.callers != [] { assert row.callers[0] in row.callers; }
    }
    RowListed(routes, calls, claims, rt, true);
    RowListed(routes, calls, claims, rt, false);
  }

  lemma {:induction false} RowListed(routes: seq<Route>, calls: seq<FrontendCall>, claims: seq<Claim>, rt: Route,
                                     called: bool)
    ensures forall row | row in Rows(routes, calls, claims, called) :: (row.callers != []) == called
    ensures rt in routes && (RowOf(rt, calls, claims).callers != []) == called ==>
      RowOf(rt, calls, claims) in Rows(routes, calls, claims, called)
  {
    hide RowOf;
    if routes != [] {
      var n := |routes| - 1;
      RowListed(routes[..n], calls, claims, rt, called);
      assert routes == routes[..n] + [routes[n]];
    }
  }

  /** A call is frontend-only exactly when no method-compatible route matches it, as often as it was found. */
  lemma {:induction false} FrontendOnlyIffUnreached(routes: seq<Route>, calls: seq<FrontendCall>, c: FrontendCall)
    ensures multiset(Unreached(routes, calls))[c] == if Reached(routes, c) then 0 else multiset(calls)[c]
  {
    hide Reached;
    if calls != [] {
      var n := |calls| - 1;
      FrontendOnlyIffUnreached(routes, calls[..n], c);
      assert calls == calls[..n] + [calls[n]];
    }
  }

  /** In terms of requests: no request it can make is an instance of a compatible route. */
  lemma FrontendOnlyIffNoSharedRequest(routes: seq<Route>, calls: seq<FrontendCall>, c: FrontendCall)
    requires c in calls
    ensures c in Unreached(routes, calls) <==>
      forall rt | rt in routes && (rt.verb == "ANY" || c.verb == rt.verb || (c.verb == "WS" && rt.verb == "GET")) ::
        !ShareRequest(Segments(rt.path), Segments(c.path))
  {
    hide Matching, ShareRequest, Segments, Unreached;
    FrontendOnlyIffUnreached(routes, calls, c);
    assert c in Unreached(routes, calls) <==> multiset(Unreached(routes, calls))[c] > 0;
    assert multiset(calls)[c] > 0;
    forall rt | rt in routes && Compatible(rt, c)
      ensures Reaches(rt, c) <==> ShareRequest(Segments(rt.path), Segments(c.path))
    {
      MatchingIffShareRequest(rt.path, c.path);
    }
  }

  /** For a call without parameters: it is an instance of no compatible route. */
  lemma FrontendOnlyIffNoInstance(routes: seq<Route>, calls: seq<FrontendCall>, c: FrontendCall)
    requires c in calls && IsRequest(Segments(c.path))
    ensures c in Unreached(routes, calls) <==>
      forall rt | rt in routes && (rt.verb == "ANY" || c.verb == rt.verb || (c.verb == "WS" && rt.verb == "GET")) ::
        !IsInstance(Segments(rt.path), Segments(c.path))
  {
    hide Matching, ShareRequest, IsInstance, Segments, Unreached, IsRequest;
    FrontendOnlyIffNoSharedRequest(routes, calls, c);
    forall rt | rt in routes && Compatible(rt, c)
      ensures ShareRequest(Segments(rt.path), Segments(c.path)) <==> IsInstance(Segments(rt.path), Segments(c.path))
    {
      MatchingIffShareRequest(rt.path, c.path);
      MatchingIffInstance(rt.path, c.path);
    }
  }
}
