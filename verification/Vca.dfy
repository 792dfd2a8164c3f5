/**
 Pulling a camera's analytics rules: the diff against the stored copy, keyed by type and name,
 and the transaction that replaces the stored copy. Coordinates are reals.
 */
module Vca {
  import opened Text

  datatype Point = Point(x: real, y: real)
  datatype Rule = Rule(ruleType: string, name: string, enabled: bool, sensitivity: int, thresholdSec: int,
                       direction: string, region: seq<Point>, schedule: string, actions: Option<seq<string>>)
  datatype Modification = Modification(before: Rule, after: Rule)

  const TOLERANCE: real := 0.02

  function Key(r: Rule): string {
    r.ruleType + "|" + r.name
  }

  function AbsDelta(a: real, b: real): real {
    if a > b then a - b else b - a
  }

  predicate Near(p: Point, q: Point) {
    AbsDelta(p.x, q.x) <= TOLERANCE && AbsDelta(p.y, q.y) <= TOLERANCE
  }

  /** The user-visible fields agree, the region up to the tolerance; schedule and actions are not compared. */
  predicate Equivalent(a: Rule, b: Rule) {
    && a.enabled == b.enabled && a.sensitivity == b.sensitivity && a.thresholdSec == b.thresholdSec
    && a.direction == b.direction && |a.region| == |b.region|
    && forall i | 0 <= i < |a.region| :: Near(a.region[i], b.region[i])
  }

  method RulesEquivalent(a: Rule, b: Rule) returns (ok: bool)
    ensures ok <==> Equivalent(a, b)
    ensures ok <==>
      && a.enabled == b.enabled && a.sensitivity == b.sensitivity && a.thresholdSec == b.thresholdSec
      && a.direction == b.direction && |a.region| == |b.region|
      && forall i | 0 <= i < |a.region| ::
           -0.02 <= a.region[i].x - b.region[i].x <= 0.02 && -0.02 <= a.region[i].y - b.region[i].y <= 0.02
  {
    if a.enabled != b.enabled {
      return false;
    }
    if a.sensitivity != b.sensitivity {
      return false;
    }
    if a.thresholdSec != b.thresholdSec {
      return false;
    }
    if a.direction != b.direction {
      return false;
    }
    if |a.region| != |b.region| {
      return false;
    }
    for i := 0 to |a.region|
      invariant forall k | 0 <= k < i :: Near(a.region[k], b.region[k])
    {
      if AbsDelta(a.region[i].x, b.region[i].x) > TOLERANCE || AbsDelta(a.region[i].y, b.region[i].y) > TOLERANCE {
        assert !Near(a.region[i], b.region[i]);
        return false;
      }
    }
    return true;
  }

  lemma EquivalenceLaws(a: Rule, b: Rule)
    ensures Equivalent(a, a)
    ensures Equivalent(a, b) ==> Equivalent(b, a)
  {
  }

  /** The tolerance makes it no equivalence relation: two small moves add up to a large one. */
  lemma EquivalentIsNotTransitive() returns (a: Rule, b: Rule, c: Rule)
    ensures Key(a) == Key(b) == Key(c)
    ensures Equivalent(a, b) && Equivalent(b, c) && !Equivalent(a, c)
  {
    a := Rule("linecross", "Line 1", true, 60, 0, "both", [Point(0.0, 0.0)], "", None);
    b := a.(region := [Point(0.02, 0.0)]);
    c := a.(region := [Point(0.04, 0.0)]);
    assert !Near(a.region[0], c.region[0]);
  }

  /** Two steps stay within twice the tolerance, and agree in every other field. */
  lemma TwoStepsStayNear(a: Rule, b: Rule, c: Rule)
    requires Equivalent(a, b) && Equivalent(b, c)
    ensures a.(region := [], ruleType := "", name := "", schedule := "", actions := None) ==
            c.(region := [], ruleType := "", name := "", schedule := "", actions := None)
    ensures |a.region| == |c.region|
    ensures forall i | 0 <= i < |a.region| ::
      AbsDelta(a.region[i].x, c.region[i].x) <= 2.0 * TOLERANCE &&
      AbsDelta(a.region[i].y, c.region[i].y) <= 2.0 * TOLERANCE
  {
    forall i | 0 <= i < |a.region|
      ensures AbsDelta(a.region[i].x, c.region[i].x) <= 2.0 * TOLERANCE
      ensures AbsDelta(a.region[i].y, c.region[i].y) <= 2.0 * TOLERANCE
    {
      assert Near(a.region[i], b.region[i]) && Near(b.region[i], c.region[i]);
    }
  }

  /** Rule types hold no bar, so the text key is the pair of type and name. */
  lemma KeysArePairs(a: Rule, b: Rule)
    requires '|' !in a.ruleType && '|' !in b.ruleType
    ensures Key(a) == Key(b) <==> a.ruleType == b.ruleType && a.name == b.name
  {
    CutAt(a.ruleType, a.name, b.ruleType, b.name, '|');
  }

  // ---- The diff ----

  /** The last rule of each key. */
  function ByKey(rules: seq<Rule>): (m: map<string, Rule>)
    ensures forall k | k in m :: Key(m[k]) == k && m[k] in rules
    ensures forall r | r in rules :: Key(r) in m
  {
    if rules == [] then map[]
    else
      var last := rules[|rules| - 1];
      assert rules == rules[..|rules| - 1] + [last];
      ByKey(rules[..|rules| - 1])[Key(last) := last]
  }

  function CameraOnly(inDB: seq<Rule>, fromCam: seq<Rule>): (r: seq<Rule>)
    ensures forall c :: c in r <==> c in fromCam && Key(c) !in ByKey(inDB)
  {
    if fromCam == [] then []
    else
      var n := |fromCam| - 1;
      assert fromCam == fromCam[..n] + [fromCam[n]];
      if Key(fromCam[n]) in ByKey(inDB) then CameraOnly(inDB, fromCam[..n])
      else CameraOnly(inDB, fromCam[..n]) + [fromCam[n]]
  }

  predicate IsModified(inDB: seq<Rule>, c: Rule) {
    Key(c) in ByKey(inDB) && !Equivalent(ByKey(inDB)[Key(c)], c)
  }

  function Modified(inDB: seq<Rule>, fromCam: seq<Rule>): (r: seq<Modification>)
    ensures forall m :: m in r <==>
      m.after in fromCam && IsModified(inDB, m.after) && m.before == ByKey(inDB)[Key(m.after)]
  {
    if fromCam == [] then []
    else
      var n := |fromCam| - 1;
      var c := fromCam[n];
      assert fromCam == fromCam[..n] + [c];
      if IsModified(inDB, c) then Modified(inDB, fromCam[..n]) + [Modification(ByKey(inDB)[Key(c)], c)]
      else Modified(inDB, fromCam[..n])
  }

  ghost predicate DistinctKeys(rules: seq<Rule>) {
    forall i, j | 0 <= i < j < |rules| :: Key(rules[i]) != Key(rules[j])
  }

  /** One rule per stored key that the camera does not report, in any order. */
  ghost predicate IsDbOnly(dbOnly: seq<Rule>, inDB: seq<Rule>, fromCam: seq<Rule>) {
    && DistinctKeys(dbOnly)
    && forall r :: r in dbOnly <==> r in ByKey(inDB).Values && Key(r) !in ByKey(fromCam)
  }

  lemma ByKeySnoc(rules: seq<Rule>, r: Rule)
    ensures ByKey(rules + [r]) == ByKey(rules)[Key(r) := r]
  {
    assert (rules + [r])[..|rules|] == rules;
  }

  /** Of several rules with one key the last one counts. */
  lemma {:induction false} LastOfItsKey(rules: seq<Rule>, i: nat)
    requires i < |rules| && forall j | i < j < |rules| :: Key(rules[j]) != Key(rules[i])
    ensures ByKey(rules)[Key(rules[i])] == rules[i]
  {
    hide Key, ByKey;
    var n := |rules| - 1;
    assert rules == rules[..n] + [rules[n]];
    ByKeySnoc(rules[..n], rules[n]);
    if i < n {
      LastOfItsKey(rules[..n], i);
      assert Key(rules[n]) != Key(rules[i]);
    }
  }

  /** No stored rule has its key. */
  ghost predicate IsNew(inDB: seq<Rule>, c: Rule) {
    forall d | d in inDB :: Key(d) != Key(c)
  }

  lemma NewIff(inDB: seq<Rule>, c: Rule)
    ensures IsNew(inDB, c) <==> Key(c) !in ByKey(inDB)
  {
    hide Key;
  }

  lemma CameraOnlySnoc(inDB: seq<Rule>, fromCam: seq<Rule>, c: Rule)
    ensures CameraOnly(inDB, fromCam + [c]) ==
      if IsNew(inDB, c) then CameraOnly(inDB, fromCam) + [c] else CameraOnly(inDB, fromCam)
  {
    hide Key, ByKey, IsNew;
    NewIff(inDB, c);
    assert (fromCam + [c])[..|fromCam|] == fromCam;
  }

  /** The camera's versions of the modified rules. */
  ghost function Changed(inDB: seq<Rule>, fromCam: seq<Rule>): seq<Rule> {
    Afters(Modified(inDB, fromCam))
  }

  lemma ModifiedSnoc(inDB: seq<Rule>, fromCam: seq<Rule>, c: Rule)
    ensures Changed(inDB, fromCam + [c]) ==
      if IsModified(inDB, c) then Changed(inDB, fromCam) + [c] else Changed(inDB, fromCam)
  {
    hide Key, ByKey, Equivalent;
    assert (fromCam + [c])[..|fromCam|] == fromCam;
    var ms := Modified(inDB, fromCam);
    if IsModified(inDB, c) {
      var m := Modification(ByKey(inDB)[Key(c)], c);
      assert (ms + [m])[..|ms|] == ms;
    }
  }

  /** The camera-only list follows the camera's order, duplicates included. */
  lemma {:induction false} AddedInOrder(inDB: seq<Rule>, fromCam: seq<Rule>) returns (ks: seq<nat>)
    ensures Picks(CameraOnly(inDB, fromCam), fromCam, ks)
    ensures forall k: nat | k < |fromCam| :: k in ks <==> IsNew(inDB, fromCam[k])
  {
    hide CameraOnly, IsNew, Picks, Key, ByKey;
    ks := [];
    if fromCam == [] {
      NothingPicked(inDB);
    } else {
      var n := |fromCam| - 1;
      var less, c := fromCam[..n], fromCam[n];
      var before := AddedInOrder(inDB, less);
      CameraOnlySnoc(inDB, less, c);
      PicksMore(CameraOnly(inDB, less), less, before, c);
      assert fromCam == less + [c];
      ks := if IsNew(inDB, c) then before + [n] else before;
    }
  }

  /** So does the modified list, which holds the rules that differ from the last stored one of their key. */
  lemma {:induction false} ChangedInOrder(inDB: seq<Rule>, fromCam: seq<Rule>) returns (ks: seq<nat>)
    ensures Picks(Changed(inDB, fromCam), fromCam, ks)
    ensures forall k: nat | k < |fromCam| :: k in ks <==> IsModified(inDB, fromCam[k])
  {
    hide Changed, IsModified, Picks, Key, ByKey;
    ks := [];
    if fromCam == [] {
      NothingPicked(inDB);
    } else {
      var n := |fromCam| - 1;
      var less, c := fromCam[..n], fromCam[n];
      var before := ChangedInOrder(inDB, less);
      ModifiedSnoc(inDB, less, c);
      PicksMore(Changed(inDB, less), less, before, c);
      assert fromCam == less + [c];
      ks := if IsModified(inDB, c) then before + [n] else before;
    }
  }

  lemma NothingPicked(inDB: seq<Rule>)
    ensures Picks(CameraOnly(inDB, []), [], []) && Picks(Changed(inDB, []), [], [])
  {
  }

  lemma DiffOfNothing(inDB: seq<Rule>)
    ensures CameraOnly(inDB, []) == [] && Modified(inDB, []) == [] && ByKey([]) == map[]
  {
  }

  lemma StepsOfDiff(inDB: seq<Rule>, fromCam: seq<Rule>, i: nat)
    requires i < |fromCam|
    ensures
      var c, before := fromCam[i], fromCam[..i];
      && CameraOnly(inDB, fromCam[..i + 1]) ==
           (if Key(c) in ByKey(inDB) then CameraOnly(inDB, before) else CameraOnly(inDB, before) + [c])
      && Modified(inDB, fromCam[..i + 1]) ==
           (if IsModified(inDB, c) then Modified(inDB, before) + [Modification(ByKey(inDB)[Key(c)], c)]
            else Modified(inDB, before))
      && ByKey(fromCam[..i + 1]) == ByKey(before)[Key(c) := c]
  {
    assert fromCam[..i + 1][..i] == fromCam[..i];
  }

  method DiffVCARules(inDB: seq<Rule>, fromCam: seq<Rule>)
    returns (dbOnly: seq<Rule>, camOnly: seq<Rule>, modified: seq<Modification>)
    ensures IsDbOnly(dbOnly, inDB, fromCam)
    ensures camOnly == CameraOnly(inDB, fromCam)
    ensures modified == Modified(inDB, fromCam)
  {
    hide ByKey, CameraOnly, Modified, Equivalent, Key;
    var dbByKey: map<string, Rule> := map[];
    for i := 0 to |inDB|
      invariant dbByKey == ByKey(inDB[..i])
    {
      ByKeySnoc(inDB[..i], inDB[i]);
      assert inDB[..i + 1] == inDB[..i] + [inDB[i]];
      dbByKey := dbByKey[Key(inDB[i]) := inDB[i]];
    }
    assert inDB[..|inDB|] == inDB;
    var seen := {};
    camOnly, modified := [], [];
    DiffOfNothing(inDB);
    for i := 0 to |fromCam|
      invariant camOnly == CameraOnly(inDB, fromCam[..i]) && modified == Modified(inDB, fromCam[..i])
      invariant seen == ByKey(fromCam[..i]).Keys
    {
      StepsOfDiff(inDB, fromCam, i);
      var c := fromCam[i];
      var key := Key(c);
      seen := seen + {key};
      if key in dbByKey {
        var d := dbByKey[key];
        var same := RulesEquivalent(d, c);
        if !same {
          modified := modified + [Modification(d, c)];
        }
      } else {
        camOnly := camOnly + [c];
      }
    }
    assert fromCam[..|fromCam|] == fromCam;
    dbOnly := CollectUnseen(dbByKey, seen);
  }

  /** The iteration over the map, in whatever order it takes the keys. */
  method CollectUnseen(dbByKey: map<string, Rule>, seen: set<string>) returns (dbOnly: seq<Rule>)
    requires forall k | k in dbByKey :: Key(dbByKey[k]) == k
    ensures DistinctKeys(dbOnly)
    ensures forall r :: r in dbOnly <==> r in dbByKey.Values && Key(r) !in seen
  {
    hide Key;
    dbOnly := [];
    var left := dbByKey.Keys;
    while left != {}
      invariant left <= dbByKey.Keys
      invariant DistinctKeys(dbOnly)
      invariant forall r :: r in dbOnly <==> r in dbByKey.Values && Key(r) !in left && Key(r) !in seen
    {
      var key :| key in left;
      left := left - {key};
      var d := dbByKey[key];
      if key !in seen {
        assert forall i | 0 <= i < |dbOnly| :: dbOnly[i] in dbOnly;
        dbOnly := dbOnly + [d];
      }
    }
  }

  // ---- The diff partitions both sides ----

  predicate Matched(inDB: seq<Rule>, c: Rule) {
    Key(c) in ByKey(inDB) && Equivalent(ByKey(inDB)[Key(c)], c)
  }

  /** With distinct keys, a rule is the one filed under its key. */
  lemma {:induction false} FiledUnderKey(rules: seq<Rule>, r: Rule)
    requires DistinctKeys(rules) && r in rules
    ensures ByKey(rules)[Key(r)] == r
  {
    var k := ByKey(rules)[Key(r)];
    var i :| 0 <= i < |rules| && rules[i] == r;
    var j :| 0 <= j < |rules| && rules[j] == k;
  }

  /** Each camera rule is camera-only, modified, or matched, and no two of these. */
  lemma CameraPartition(inDB: seq<Rule>, fromCam: seq<Rule>, c: Rule)
    requires c in fromCam
    ensures
      var added := c in CameraOnly(inDB, fromCam);
      var changed := exists m :: m in Modified(inDB, fromCam) && m.after == c;
      var same := Matched(inDB, c);
      (added || changed || same) && !(added && changed) && !(added && same) && !(changed && same)
  {
    hide ByKey, CameraOnly, Modified, Equivalent, Key;
    if IsModified(inDB, c) {
      assert Modification(ByKey(inDB)[Key(c)], c) in Modified(inDB, fromCam);
    }
  }

  /** Each stored rule is db-only, replaced by one camera rule, or matched by one, and no two of these. */
  lemma StoredPartition(dbOnly: seq<Rule>, inDB: seq<Rule>, fromCam: seq<Rule>, d: Rule)
    requires DistinctKeys(inDB) && DistinctKeys(fromCam) && IsDbOnly(dbOnly, inDB, fromCam) && d in inDB
    ensures
      var dropped := d in dbOnly;
      var changed := exists m :: m in Modified(inDB, fromCam) && m.before == d;
      var same := exists c :: c in fromCam && Key(c) == Key(d) && Equivalent(d, c);
      (dropped || changed || same) && !(dropped && changed) && !(dropped && same) && !(changed && same)
  {
    hide ByKey, CameraOnly, Modified, Equivalent, Key;
    FiledUnderKey(inDB, d);
    assert d in ByKey(inDB).Values;
    if Key(d) in ByKey(fromCam) {
      var c := ByKey(fromCam)[Key(d)];
      if IsModified(inDB, c) {
        assert Modification(d, c) in Modified(inDB, fromCam);
      }
      forall b | b in fromCam && Key(b) == Key(d) ensures b == c { FiledUnderKey(fromCam, b); }
    }
  }

  // ---- Patching the stored set with the diff gives the camera's set ----

  /** Drops the db-only rules and replaces the modified ones. */
  function Kept(rules: seq<Rule>, dropped: map<string, Rule>, afters: map<string, Rule>): (r: seq<Rule>)
    requires forall k | k in afters :: Key(afters[k]) == k
    ensures forall x :: x in r <==> exists d :: d in rules && Key(d) !in dropped && x == Patched(d, afters)
  {
    if rules == [] then []
    else
      var n := |rules| - 1;
      assert rules == rules[..n] + [rules[n]];
      if Key(rules[n]) in dropped then Kept(rules[..n], dropped, afters)
      else Kept(rules[..n], dropped, afters) + [Patched(rules[n], afters)]
  }

  function Patched(d: Rule, afters: map<string, Rule>): (r: Rule)
    requires forall k | k in afters :: Key(afters[k]) == k
    ensures Key(r) == Key(d)
  {
    if Key(d) in afters then afters[Key(d)] else d
  }

  function Afters(ms: seq<Modification>): (r: seq<Rule>)
    ensures forall c :: c in r <==> exists m :: m in ms && m.after == c
  {
    if ms == [] then []
    else
      assert ms == ms[..|ms| - 1] + [ms[|ms| - 1]];
      Afters(ms[..|ms| - 1]) + [ms[|ms| - 1].after]
  }

  function Patch(inDB: seq<Rule>, dbOnly: seq<Rule>, modified: seq<Modification>, camOnly: seq<Rule>): seq<Rule> {
    Kept(inDB, ByKey(dbOnly), ByKey(Afters(modified))) + camOnly
  }

  /** The two sets have the same keys, and under each key equivalent rules. */
  ghost predicate SameRules(a: seq<Rule>, b: seq<Rule>) {
    && (forall r | r in a :: exists s :: s in b && Key(s) == Key(r) && Equivalent(r, s))
    && (forall s | s in b :: exists r :: r in a && Key(s) == Key(r) && Equivalent(r, s))
  }

  /** What a stored rule becomes: gone with a db-only key, else equivalent to the camera's rule of its key. */
  lemma PatchedRule(dbOnly: seq<Rule>, inDB: seq<Rule>, fromCam: seq<Rule>, d: Rule)
    requires DistinctKeys(inDB) && DistinctKeys(fromCam) && IsDbOnly(dbOnly, inDB, fromCam) && d in inDB
    ensures Key(d) in ByKey(dbOnly) <==> Key(d) !in ByKey(fromCam)
    ensures Key(d) in ByKey(fromCam) ==>
      Equivalent(Patched(d, ByKey(Afters(Modified(inDB, fromCam)))), ByKey(fromCam)[Key(d)])
  {
    hide ByKey, CameraOnly, Modified, Equivalent, Key, Afters;
    FiledUnderKey(inDB, d);
    assert d in ByKey(inDB).Values;
    if Key(d) in ByKey(dbOnly) {
      assert ByKey(dbOnly)[Key(d)] in dbOnly;
    }
    if Key(d) in ByKey(fromCam) {
      var c := ByKey(fromCam)[Key(d)];
      var ms := Modified(inDB, fromCam);
      EquivalenceLaws(c, c);
      if IsModified(inDB, c) {
        assert Modification(d, c) in ms && c in Afters(ms);
      }
      var afters := ByKey(Afters(ms));
      if Key(d) in afters {
        var a := afters[Key(d)];
        assert a in fromCam && IsModified(inDB, a);
        FiledUnderKey(fromCam, a);
      }
    }
  }

  /** Applying the diff to the stored set gives the camera's set, up to equivalence. */
  lemma PatchGivesCamera(dbOnly: seq<Rule>, inDB: seq<Rule>, fromCam: seq<Rule>)
    requires DistinctKeys(inDB) && DistinctKeys(fromCam) && IsDbOnly(dbOnly, inDB, fromCam)
    ensures SameRules(Patch(inDB, dbOnly, Modified(inDB, fromCam), CameraOnly(inDB, fromCam)), fromCam)
  {
    hide ByKey, CameraOnly, Modified, Equivalent, Key, Afters, Kept, Patched, IsDbOnly;
    var afters := ByKey(Afters(Modified(inDB, fromCam)));
    var kept := Kept(inDB, ByKey(dbOnly), afters);
    var added := CameraOnly(inDB, fromCam);
    forall r | r in kept + added
      ensures exists s :: s in fromCam && Key(s) == Key(r) && Equivalent(r, s)
    {
      if r in added {
        EquivalenceLaws(r, r);
      } else {
        var d :| d in inDB && Key(d) !in ByKey(dbOnly) && r == Patched(d, afters);
        PatchedRule(dbOnly, inDB, fromCam, d);
        assert ByKey(fromCam)[Key(d)] in fromCam;
      }
    }
    forall s | s in fromCam
      ensures exists r :: r in kept + added && Key(s) == Key(r) && Equivalent(r, s)
    {
      FiledUnderKey(fromCam, s);
      if Key(s) in ByKey(inDB) {
        var d := ByKey(inDB)[Key(s)];
        PatchedRule(dbOnly, inDB, fromCam, d);
        assert Patched(d, afters) in kept;
      } else {
        assert s in added;
        EquivalenceLaws(s, s);
      }
    }
  }

  // ---- Applying, and the next diff ----

  const DEFAULT_ACTIONS: seq<string> := ["record", "notify"]

  /** The stored row of a rule, with the shared defaults. */
  function FromCreate(c: Rule): Rule {
    c.(schedule := if c.schedule == "" then "always" else c.schedule,
       actions := if c.actions.None? then Some(DEFAULT_ACTIONS) else c.actions)
  }

  function Applied(rules: seq<Rule>): (r: seq<Rule>)
    ensures |r| == |rules| && forall i | 0 <= i < |rules| :: r[i] == FromCreate(rules[i])
  {
    seq(|rules|, i requires 0 <= i < |rules| => FromCreate(rules[i]))
  }

  /** A listing of the stored rows: creation times tie within a transaction, so any order may come back. */
  ghost predicate Lists(listed: seq<Rule>, rows: seq<Rule>) {
    multiset(listed) == multiset(rows)
  }

  ghost predicate DiffIsEmpty(inDB: seq<Rule>, fromCam: seq<Rule>) {
    CameraOnly(inDB, fromCam) == [] && Modified(inDB, fromCam) == [] && IsDbOnly([], inDB, fromCam)
  }

  /** Rules of one key are all equivalent to each other. */
  ghost predicate KeysAgree(rules: seq<Rule>) {
    forall a, b | a in rules && b in rules && Key(a) == Key(b) :: Equivalent(a, b)
  }

  /** A given schedule and given actions are stored as they are, missing ones by their defaults, the rest as it is. */
  ghost predicate Stores(row: Rule, c: Rule) {
    && row.ruleType == c.ruleType && row.name == c.name && row.enabled == c.enabled
    && row.sensitivity == c.sensitivity && row.thresholdSec == c.thresholdSec && row.direction == c.direction
    && row.region == c.region
    && (c.schedule != "" ==> row.schedule == c.schedule) && (c.schedule == "" ==> row.schedule == "always")
    && (c.actions.Some? ==> row.actions == c.actions) && (c.actions.None? ==> row.actions == Some(["record", "notify"]))
  }

  lemma StoresIff(row: Rule, c: Rule)
    ensures Stores(row, c) <==> row == FromCreate(c)
    ensures FromCreate(c) == c <==> c.schedule != "" && c.actions.Some?
  {
  }

  lemma DefaultsAreInvisible(c: Rule, d: Rule)
    ensures Key(FromCreate(c)) == Key(c) && Equivalent(FromCreate(c), d) == Equivalent(c, d)
  {
  }

  lemma Stored(listed: seq<Rule>, fromCam: seq<Rule>)
    requires Lists(listed, Applied(fromCam))
    ensures forall r :: r in listed <==> exists c :: c in fromCam && r == FromCreate(c)
  {
    forall r ensures r in listed <==> r in Applied(fromCam) {
      assert r in listed <==> r in multiset(listed);
      assert r in Applied(fromCam) <==> r in multiset(Applied(fromCam));
    }
    forall c | c in fromCam ensures FromCreate(c) in Applied(fromCam) {
      var i :| 0 <= i < |fromCam| && fromCam[i] == c;
      assert Applied(fromCam)[i] == FromCreate(c);
    }
  }

  lemma FirstIsIn<T>(s: seq<T>)
    ensures s == [] || s[0] in s
  {
  }

  /** A diff after an apply can only report modifications: both sides have the same keys. */
  lemma EmptyIffNoneModified(listed: seq<Rule>, fromCam: seq<Rule>)
    requires Lists(listed, Applied(fromCam))
    ensures DiffIsEmpty(listed, fromCam) <==> forall c | c in fromCam :: !IsModified(listed, c)
    ensures forall c | c in fromCam :: Key(c) in ByKey(listed)
  {
    hide ByKey, CameraOnly, Modified, Equivalent, Key, Lists, FromCreate;
    Stored(listed, fromCam);
    forall c | c in fromCam ensures Key(c) in ByKey(listed) {
      DefaultsAreInvisible(c, c);
      assert FromCreate(c) in listed;
    }
    forall r | r in ByKey(listed).Values ensures Key(r) in ByKey(fromCam) {
      assert r in listed;
      var c :| c in fromCam && r == FromCreate(c);
      DefaultsAreInvisible(c, c);
    }
    var added, ms := CameraOnly(listed, fromCam), Modified(listed, fromCam);
    FirstIsIn(added);
    FirstIsIn(ms);
    forall c | c in fromCam && IsModified(listed, c) ensures ms != [] {
      assert Modification(ByKey(listed)[Key(c)], c) in ms;
    }
  }

  /** After a full apply the next diff is empty in every listing order exactly when same-key rules agree. */
  lemma NextDiffIsEmptyIff(fromCam: seq<Rule>)
    ensures (forall listed | Lists(listed, Applied(fromCam)) :: DiffIsEmpty(listed, fromCam)) <==> KeysAgree(fromCam)
  {
    hide DiffIsEmpty, Lists, KeysAgree;
    if KeysAgree(fromCam) {
      forall listed | Lists(listed, Applied(fromCam)) ensures DiffIsEmpty(listed, fromCam) {
        AgreeingKeys(listed, fromCam);
      }
    } else {
      var listed := ClashingOrder(fromCam);
    }
  }

  lemma AgreeingKeys(listed: seq<Rule>, fromCam: seq<Rule>)
    requires Lists(listed, Applied(fromCam)) && KeysAgree(fromCam)
    ensures DiffIsEmpty(listed, fromCam)
  {
    hide ByKey, DiffIsEmpty, Equivalent, Key, Lists, FromCreate;
    EmptyIffNoneModified(listed, fromCam);
    Stored(listed, fromCam);
    forall c | c in fromCam ensures !IsModified(listed, c) {
      var d := ByKey(listed)[Key(c)];
      var b :| b in fromCam && d == FromCreate(b);
      DefaultsAreInvisible(b, c);
    }
  }

  lemma MovedToTheEnd(rows: seq<Rule>, i: nat)
    requires i < |rows|
    ensures multiset(rows[..i] + rows[i + 1..] + [rows[i]]) == multiset(rows)
  {
    assert rows == rows[..i] + [rows[i]] + rows[i + 1..];
  }

  /** Listing the wrong one of two clashing rules last makes the next diff report the other. */
  lemma ClashingOrder(fromCam: seq<Rule>) returns (listed: seq<Rule>)
    requires !KeysAgree(fromCam)
    ensures Lists(listed, Applied(fromCam)) && !DiffIsEmpty(listed, fromCam)
  {
    hide Equivalent, Key, DiffIsEmpty, FromCreate, ByKey;
    var a, b :| a in fromCam && b in fromCam && Key(a) == Key(b) && !Equivalent(a, b);
    var i :| 0 <= i < |fromCam| && fromCam[i] == a;
    var rows := Applied(fromCam);
    listed := rows[..i] + rows[i + 1..] + [rows[i]];
    MovedToTheEnd(rows, i);
    ByKeySnoc(rows[..i] + rows[i + 1..], rows[i]);
    DefaultsAreInvisible(a, b);
    EmptyIffNoneModified(listed, fromCam);
    assert ByKey(listed)[Key(b)] == FromCreate(a);
    assert IsModified(listed, b);
  }

  /** With distinct keys the next diff is empty, in whatever order the rows come back. */
  lemma NextDiffIsEmpty(listed: seq<Rule>, fromCam: seq<Rule>)
    requires DistinctKeys(fromCam) && Lists(listed, Applied(fromCam))
    ensures DiffIsEmpty(listed, fromCam)
  {
    hide DiffIsEmpty, Lists, ByKey, Key, Equivalent;
    forall a, b | a in fromCam && b in fromCam && Key(a) == Key(b) ensures Equivalent(a, b) {
      FiledUnderKey(fromCam, a);
      FiledUnderKey(fromCam, b);
      EquivalenceLaws(a, a);
    }
    AgreeingKeys(listed, fromCam);
  }

  // ---- The table ----

  type CameraId = string
  datatype Row = Row(camera: CameraId, rule: Rule, deleted: bool)

  /** The live rules of one camera. */
  function Live(rows: seq<Row>, camera: CameraId): seq<Rule> {
    if rows == [] then []
    else
      var n := |rows| - 1;
      if rows[n].camera == camera && !rows[n].deleted then Live(rows[..n], camera) + [rows[n].rule]
      else Live(rows[..n], camera)
  }

  function SoftDeleted(rows: seq<Row>): seq<Row> {
    if rows == [] then []
    else
      var n := |rows| - 1;
      if rows[n].deleted then SoftDeleted(rows[..n]) + [rows[n]] else SoftDeleted(rows[..n])
  }

  /** DELETE of one camera's live rows. */
  function WithoutLive(rows: seq<Row>, camera: CameraId): (r: seq<Row>)
    ensures Live(r, camera) == []
    ensures SoftDeleted(r) == SoftDeleted(rows)
    ensures forall other | other != camera :: Live(r, other) == Live(rows, other)
  {
    if rows == [] then []
    else
      var n := |rows| - 1;
      var before := WithoutLive(rows[..n], camera);
      assert (before + [rows[n]])[..|before|] == before;
      if rows[n].camera == camera && !rows[n].deleted then before else before + [rows[n]]
  }

  lemma RowSnoc(rows: seq<Row>, r: Row, camera: CameraId)
    ensures Live(rows + [r], camera) ==
      if r.camera == camera && !r.deleted then Live(rows, camera) + [r.rule] else Live(rows, camera)
    ensures SoftDeleted(rows + [r]) == if r.deleted then SoftDeleted(rows) + [r] else SoftDeleted(rows)
  {
    assert (rows + [r])[..|rows|] == rows;
  }

  class VcaTable {
    var rows: seq<Row>

    constructor ()
      ensures rows == []
    {
      rows := [];
    }

    /**
     Replaces one camera's live rules in one transaction; `failsAt` is the step at which the
     database gives up, if it does.
     */
    method ApplyCameraVCAToDB(camera: CameraId, rules: seq<Rule>, failsAt: Option<nat>) returns (ok: bool)
      modifies this
      ensures ok <==> failsAt.None? || failsAt.value > |rules| + 1
      ensures !ok ==> rows == old(rows)
      ensures ok ==> Live(rows, camera) == Applied(rules)
      ensures ok ==> |Live(rows, camera)| == |rules|
      ensures ok ==> forall i | 0 <= i < |rules| :: Stores(Live(rows, camera)[i], rules[i])
      ensures forall other | other != camera :: Live(rows, other) == Live(old(rows), other)
      ensures SoftDeleted(rows) == SoftDeleted(old(rows))
    {
      hide Live, SoftDeleted, WithoutLive, FromCreate, Stores;
      if failsAt == Some(0) {
        return false;
      }
      var tx := WithoutLive(rows, camera);
      for i := 0 to |rules|
        invariant rows == old(rows)
        invariant failsAt.None? || failsAt.value > i
        invariant Live(tx, camera) == Applied(rules)[..i]
        invariant forall other | other != camera :: Live(tx, other) == Live(rows, other)
        invariant SoftDeleted(tx) == SoftDeleted(rows)
      {
        if failsAt == Some(i + 1) {
          return false;
        }
        var row := Row(camera, FromCreate(rules[i]), false);
        forall other { RowSnoc(tx, row, other); }
        assert Applied(rules)[..i + 1] == Applied(rules)[..i] + [row.rule];
        tx := tx + [row];
      }
      if failsAt == Some(|rules| + 1) {
        return false;
      }
      assert Applied(rules)[..|rules|] == Applied(rules);
      forall i | 0 <= i < |rules| { StoresIff(Applied(rules)[i], rules[i]); }
      rows := tx;
      return true;
    }
  }
}
