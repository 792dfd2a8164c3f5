/**
 The metrics sampler: at every tick it loads the counters one by one, subtracts the previous
 tick's values and writes the differences, or zeros where a difference is negative.
 */
module AiSampler {
  import opened Text
  import opened AiCounters

  /** The two counters of one model in one scope, as loaded; filtered is derived from them. */
  datatype Reading = Reading(calls: int, confirmed: int) {
    function Filtered(): int { calls - confirmed }
  }
  datatype Stats = Stats(yolo: Reading, qwen: Reading) {
    function Of(model: Model): Reading { if model.Yolo? then yolo else qwen }
  }
  datatype Triple = Triple(calls: int, confirmed: int, filtered: int)
  datatype Row = Row(service: Model, site: string, delta: Triple)
  datatype SiteReading = SiteReading(siteID: string, stats: Stats)

  const NOTHING: Reading := Reading(0, 0)

  predicate Clamped(prev: Reading, cur: Reading) {
    cur.calls - prev.calls < 0 || cur.confirmed - prev.confirmed < 0 || cur.Filtered() - prev.Filtered() < 0
  }

  function Delta(prev: Reading, cur: Reading): Triple {
    if Clamped(prev, cur) then Triple(0, 0, 0)
    else Triple(cur.calls - prev.calls, cur.confirmed - prev.confirmed, cur.Filtered() - prev.Filtered())
  }

  /** A written triple adds up and is never negative, however torn the two readings are. */
  lemma WrittenTripleAdds(prev: Reading, cur: Reading)
    ensures
      var d := Delta(prev, cur);
      && d.calls == d.confirmed + d.filtered && d.calls >= 0 && d.confirmed >= 0 && d.filtered >= 0
      && (d == Triple(0, 0, 0) || (prev.calls + d.calls, prev.confirmed + d.confirmed) == (cur.calls, cur.confirmed))
  {
  }

  /** The three numbers of a row, and where a reading shows them. */
  datatype Part = CallsPart | ConfirmedPart | FilteredPart

  function InRow(d: Triple, part: Part): int {
    match part case CallsPart => d.calls case ConfirmedPart => d.confirmed case FilteredPart => d.filtered
  }

  function InReading(r: Reading, part: Part): int {
    match part case CallsPart => r.calls case ConfirmedPart => r.confirmed case FilteredPart => r.calls - r.confirmed
  }

  predicate Active(d: Triple) { d.calls > 0 || d.confirmed > 0 || d.filtered > 0 }

  function Before(prevSite: map<string, Stats>, id: string): Stats {
    if id in prevSite then prevSite[id] else Stats(NOTHING, NOTHING)
  }

  function RowIfActive(service: Model, site: string, d: Triple): seq<Row> {
    if Active(d) then [Row(service, site, d)] else []
  }

  /** The rows of the first n sites of a snapshot. */
  function SiteRows(prevSite: map<string, Stats>, sites: seq<SiteReading>, n: nat): seq<Row>
    requires n <= |sites|
  {
    if n == 0 then []
    else
      var s := sites[n - 1];
      var p := Before(prevSite, s.siteID);
      SiteRows(prevSite, sites, n - 1) +
      RowIfActive(Yolo, s.siteID, Delta(p.yolo, s.stats.yolo)) +
      RowIfActive(Qwen, s.siteID, Delta(p.qwen, s.stats.qwen))
  }

  function SiteMap(sites: seq<SiteReading>, n: nat): map<string, Stats>
    requires n <= |sites|
  {
    if n == 0 then map[] else SiteMap(sites, n - 1)[sites[n - 1].siteID := sites[n - 1].stats]
  }

  /** All rows of one tick; the global rows carry the empty site. */
  function TickRows(prev: Stats, prevSite: map<string, Stats>, cur: Stats, sites: seq<SiteReading>): seq<Row> {
    [Row(Yolo, "", Delta(prev.yolo, cur.yolo)), Row(Qwen, "", Delta(prev.qwen, cur.qwen))] +
    SiteRows(prevSite, sites, |sites|)
  }

  class MetricsSampler {
    var prev: Stats
    var prevSite: map<string, Stats>

    constructor ()
      ensures prev == Stats(NOTHING, NOTHING) && prevSite == map[]
    {
      prev, prevSite := Stats(NOTHING, NOTHING), map[];
    }

    static method Difference(prev: Reading, cur: Reading) returns (d: Triple)
      ensures d == Delta(prev, cur)
    {
      var calls, conf, filt := cur.calls - prev.calls, cur.confirmed - prev.confirmed, cur.Filtered() - prev.Filtered();
      if calls < 0 || conf < 0 || filt < 0 {
        return Triple(0, 0, 0);
      }
      return Triple(calls, conf, filt);
    }

    static method AppendRow(rows: seq<Row>, service: Model, site: string, d: Triple) returns (r: seq<Row>)
      ensures r == rows + RowIfActive(service, site, d)
    {
      r := rows;
      if d.calls > 0 || d.confirmed > 0 || d.filtered > 0 {
        r := r + [Row(service, site, d)];
      }
    }

    method Tick(cur: Stats, curSite: seq<SiteReading>) returns (rows: seq<Row>)
      modifies this
      ensures rows == TickRows(old(prev), old(prevSite), cur, curSite)
      ensures prev == cur && prevSite == SiteMap(curSite, |curSite|)
    {
      hide Delta, RowIfActive;
      var y := Difference(prev.yolo, cur.yolo);
      var q := Difference(prev.qwen, cur.qwen);
      prev := cur;
      rows := [Row(Yolo, "", y), Row(Qwen, "", q)];
      ghost var global := rows;
      var newPrev := map[];
      for i := 0 to |curSite|
        invariant rows == global + SiteRows(prevSite, curSite, i)
        invariant newPrev == SiteMap(curSite, i)
        invariant prev == cur && prevSite == old(prevSite)
      {
        var s := curSite[i];
        var p := Before(prevSite, s.siteID);
        var sy := Difference(p.yolo, s.stats.yolo);
        var sq := Difference(p.qwen, s.stats.qwen);
        rows := AppendRow(rows, Yolo, s.siteID, sy);
        rows := AppendRow(rows, Qwen, s.siteID, sq);
        Regroup(global, SiteRows(prevSite, curSite, i), RowIfActive(Yolo, s.siteID, sy),
                RowIfActive(Qwen, s.siteID, sq));
        newPrev := newPrev[s.siteID := s.stats];
      }
      prevSite := newPrev;
    }
  }

  // ---- Which rows a tick writes ----

  lemma {:induction false} SiteRowsShape(prevSite: map<string, Stats>, sites: seq<SiteReading>, n: nat)
    requires n <= |sites|
    ensures forall r | r in SiteRows(prevSite, sites, n) ::
      r.delta != Triple(0, 0, 0) && exists i :: 0 <= i < n && sites[i].siteID == r.site
  {
    hide Delta;
    if n > 0 { SiteRowsShape(prevSite, sites, n - 1); }
  }

  /**
   A tick writes one global row per service, whatever it shows, and site rows only for the snapshot's sites
   and only with some activity: silent sites have none.
   */
  lemma TickRowsShape(prev: Stats, prevSite: map<string, Stats>, cur: Stats, sites: seq<SiteReading>)
    ensures
      var rows := TickRows(prev, prevSite, cur, sites);
      && |rows| >= 2 && rows[0].service == Yolo && rows[1].service == Qwen && rows[0].site == rows[1].site == ""
      && forall k | 2 <= k < |rows| ::
           rows[k].delta != Triple(0, 0, 0) && exists i :: 0 <= i < |sites| && sites[i].siteID == rows[k].site
  {
    hide Delta, SiteRows;
    SiteRowsShape(prevSite, sites, |sites|);
    var rows := TickRows(prev, prevSite, cur, sites);
    forall k | 2 <= k < |rows|
      ensures rows[k].delta != Triple(0, 0, 0) && exists i :: 0 <= i < |sites| && sites[i].siteID == rows[k].site
    {
      assert rows[k] == SiteRows(prevSite, sites, |sites|)[k - 2];
    }
  }

  // ---- Runs of ticks ----

  datatype Snapshot = Snapshot(cur: Stats, sites: seq<SiteReading>)

  /** What a run of ticks has written, from a fresh sampler. */
  function RunRows(snaps: seq<Snapshot>): seq<Row> {
    if snaps == [] then []
    else
      var n := |snaps| - 1;
      var (prev, prevSite) := PrevOf(snaps[..n]);
      RunRows(snaps[..n]) + TickRows(prev, prevSite, snaps[n].cur, snaps[n].sites)
  }

  function PrevOf(snaps: seq<Snapshot>): (Stats, map<string, Stats>) {
    if snaps == [] then (Stats(NOTHING, NOTHING), map[])
    else
      var last := snaps[|snaps| - 1];
      (last.cur, SiteMap(last.sites, |last.sites|))
  }

  /** What one field of the rows of one service and site adds up to. */
  function RowSum(rows: seq<Row>, service: Model, site: string, part: Part): int {
    if rows == [] then 0
    else
      var r := rows[|rows| - 1];
      RowSum(rows[..|rows| - 1], service, site, part) +
      (if r.service == service && r.site == site then InRow(r.delta, part) else 0)
  }

  /** The reading a snapshot shows for a site, or for everything under the empty id. */
  function Shown(snap: Snapshot, service: Model, site: string): Option<Reading> {
    if site == "" then Some(snap.cur.Of(service))
    else if site in SiteMap(snap.sites, |snap.sites|) then Some(SiteMap(snap.sites, |snap.sites|)[site].Of(service))
    else None
  }

  function PrevReading(shown: seq<Option<Reading>>): Reading {
    if shown == [] || shown[|shown| - 1].None? then NOTHING else shown[|shown| - 1].value
  }

  /** The differences written over a run of readings. */
  function Written(shown: seq<Option<Reading>>, part: Part): int {
    if shown == [] then 0
    else
      var n := |shown| - 1;
      Written(shown[..n], part) +
      (if shown[n].None? then 0 else InRow(Delta(PrevReading(shown[..n]), shown[n].value), part))
  }

  /** The differences that clamped ticks swallowed. */
  function Lost(shown: seq<Option<Reading>>, part: Part): int {
    if shown == [] then 0
    else
      var n := |shown| - 1;
      var prev := PrevReading(shown[..n]);
      Lost(shown[..n], part) +
      (if shown[n].Some? && Clamped(prev, shown[n].value)
       then InReading(shown[n].value, part) - InReading(prev, part) else 0)
  }

  ghost predicate Unclamped(shown: seq<Option<Reading>>) {
    forall n | 0 <= n < |shown| && shown[n].Some? :: !Clamped(PrevReading(shown[..n]), shown[n].value)
  }

  ghost predicate OneEach(sites: seq<SiteReading>) {
    && (forall i, j | 0 <= i < j < |sites| :: sites[i].siteID != sites[j].siteID)
    && (forall i | 0 <= i < |sites| :: sites[i].siteID != "")
  }

  lemma RowSumSnoc(rows: seq<Row>, r: Row, service: Model, site: string, part: Part)
    ensures RowSum(rows + [r], service, site, part) ==
      RowSum(rows, service, site, part) + (if r.service == service && r.site == site then InRow(r.delta, part) else 0)
  {
    assert (rows + [r])[..|rows|] == rows;
  }

  lemma {:induction false} RowSumAppend(a: seq<Row>, b: seq<Row>, service: Model, site: string, part: Part)
    ensures RowSum(a + b, service, site, part) == RowSum(a, service, site, part) + RowSum(b, service, site, part)
  {
    if b == [] {
      assert a + b == a;
    } else {
      var n := |b| - 1;
      RowSumAppend(a, b[..n], service, site, part);
      assert a + b == a + b[..n] + [b[n]];
      RowSumSnoc(a + b[..n], b[n], service, site, part);
    }
  }

  lemma RowIfActiveSum(rows: seq<Row>, service: Model, site: string, prev: Reading, cur: Reading, s: Model,
                         id: string, part: Part)
    ensures RowSum(rows + RowIfActive(service, site, Delta(prev, cur)), s, id, part) ==
      RowSum(rows, s, id, part) + (if service == s && site == id then InRow(Delta(prev, cur), part) else 0)
  {
    hide RowSum;
    var d := Delta(prev, cur);
    if Active(d) {
      RowSumSnoc(rows, Row(service, site, d), s, id, part);
    } else {
      assert rows + [] == rows;
    }
  }

  /** A silent site loses nothing by having no row: the rows of a tick add up to its difference. */
  lemma {:induction false} SiteRowsSum(prevSite: map<string, Stats>, sites: seq<SiteReading>, n: nat,
                                         service: Model, id: string, part: Part)
    requires OneEach(sites) && n <= |sites|
    ensures RowSum(SiteRows(prevSite, sites, n), service, id, part) ==
      if id in SiteMap(sites, n)
      then InRow(Delta(Before(prevSite, id).Of(service), SiteMap(sites, n)[id].Of(service)), part) else 0
    ensures id in SiteMap(sites, n) <==> exists i | 0 <= i < n :: sites[i].siteID == id
  {
    hide Delta, RowSum, RowIfActive;
    if n == 0 {
      NoRows(service, id, part);
    } else {
      SiteRowsSum(prevSite, sites, n - 1, service, id, part);
      var s := sites[n - 1];
      var p := Before(prevSite, s.siteID);
      var rows := SiteRows(prevSite, sites, n - 1);
      RowIfActiveSum(rows, Yolo, s.siteID, p.yolo, s.stats.yolo, service, id, part);
      RowIfActiveSum(rows + RowIfActive(Yolo, s.siteID, Delta(p.yolo, s.stats.yolo)), Qwen, s.siteID,
                       p.qwen, s.stats.qwen, service, id, part);
    }
  }

  lemma NoRows(service: Model, id: string, part: Part)
    ensures RowSum([], service, id, part) == 0
  {
  }

  lemma TickSum(prev: Stats, prevSite: map<string, Stats>, cur: Stats, sites: seq<SiteReading>, service: Model,
                  id: string, part: Part)
    requires OneEach(sites)
    ensures
      var m := SiteMap(sites, |sites|);
      RowSum(TickRows(prev, prevSite, cur, sites), service, id, part) ==
        if id == "" then InRow(Delta(prev.Of(service), cur.Of(service)), part)
        else if id in m then InRow(Delta(Before(prevSite, id).Of(service), m[id].Of(service)), part)
        else 0
  {
    hide Delta, RowSum, SiteRows, SiteMap;
    var y, q := Row(Yolo, "", Delta(prev.yolo, cur.yolo)), Row(Qwen, "", Delta(prev.qwen, cur.qwen));
    NoRows(service, id, part);
    RowSumSnoc([], y, service, id, part);
    RowSumSnoc([] + [y], q, service, id, part);
    assert [y, q] == [] + [y] + [q];
    RowSumAppend([y, q], SiteRows(prevSite, sites, |sites|), service, id, part);
    SiteRowsSum(prevSite, sites, |sites|, service, id, part);
  }

  function AllShown(snaps: seq<Snapshot>, service: Model, site: string): seq<Option<Reading>> {
    seq(|snaps|, i requires 0 <= i < |snaps| => Shown(snaps[i], service, site))
  }

  /** The rows of a run add up, per service and site, to the differences between its readings. */
  lemma {:induction false} RowsAreDifferences(snaps: seq<Snapshot>, service: Model, site: string, part: Part)
    requires forall i | 0 <= i < |snaps| :: OneEach(snaps[i].sites)
    ensures RowSum(RunRows(snaps), service, site, part) == Written(AllShown(snaps, service, site), part)
  {
    hide RowSum, TickRows, Delta, OneEach, SiteMap;
    if snaps == [] {
      NoRows(service, site, part);
    } else {
      var n := |snaps| - 1;
      var shown := AllShown(snaps, service, site);
      assert shown[..n] == AllShown(snaps[..n], service, site);
      RowsAreDifferences(snaps[..n], service, site, part);
      var (prev, prevSite) := PrevOf(snaps[..n]);
      TickSum(prev, prevSite, snaps[n].cur, snaps[n].sites, service, site, part);
      RowSumAppend(RunRows(snaps[..n]), TickRows(prev, prevSite, snaps[n].cur, snaps[n].sites), service, site, part);
    }
  }

  /** Once a site shows up in a snapshot it shows up in all later ones. */
  ghost predicate Lasting(shown: seq<Option<Reading>>) {
    forall i, j | 0 <= i < j < |shown| && shown[i].Some? :: shown[j].Some?
  }

  lemma SplitDifference(prev: Reading, cur: Reading, part: Part)
    ensures InRow(Delta(prev, cur), part) ==
      if Clamped(prev, cur) then 0 else InReading(cur, part) - InReading(prev, part)
  {
  }

  /** What is written and what clamping swallows is together the last reading. */
  lemma {:induction false} WrittenPlusLost(shown: seq<Option<Reading>>, part: Part)
    requires Lasting(shown)
    ensures Written(shown, part) + Lost(shown, part) == InReading(PrevReading(shown), part)
  {
    hide Delta, Clamped;
    if shown != [] {
      var n := |shown| - 1;
      WrittenPlusLost(shown[..n], part);
      if shown[n].Some? {
        SplitDifference(PrevReading(shown[..n]), shown[n].value, part);
      } else if n > 0 {
        assert shown[n - 1].None?;
      }
    }
  }

  lemma {:induction false} UnclampedLosesNothing(shown: seq<Option<Reading>>, part: Part)
    requires Unclamped(shown)
    ensures Lost(shown, part) == 0
  {
    hide Clamped, PrevReading;
    if shown != [] {
      var n := |shown| - 1;
      assert forall k | 0 <= k < n :: shown[..n][..k] == shown[..k];
      UnclampedLosesNothing(shown[..n], part);
    }
  }

  /** No clamped tick saw new ones. */
  ghost predicate NoneSwallowed(shown: seq<Option<Reading>>, part: Part) {
    forall n | 0 <= n < |shown| && shown[n].Some? && Clamped(PrevReading(shown[..n]), shown[n].value) ::
      InReading(shown[n].value, part) == InReading(PrevReading(shown[..n]), part)
  }

  /** What a run of readings shows never falls. */
  ghost predicate NeverFalls(shown: seq<Option<Reading>>, part: Part) {
    forall n | 0 <= n < |shown| && shown[n].Some? ::
      InReading(shown[n].value, part) >= InReading(PrevReading(shown[..n]), part)
  }

  /** If it never falls, nothing is lost exactly when no clamped tick saw new ones. */
  lemma {:induction false} LostIffSwallowed(shown: seq<Option<Reading>>, part: Part)
    requires NeverFalls(shown, part)
    ensures Lost(shown, part) >= 0
    ensures Lost(shown, part) == 0 <==> NoneSwallowed(shown, part)
  {
    hide Clamped, PrevReading;
    if shown != [] {
      var n := |shown| - 1;
      assert forall k | 0 <= k < n :: shown[..n][..k] == shown[..k] && shown[..n][k] == shown[k];
      LostIffSwallowed(shown[..n], part);
      var prev := PrevReading(shown[..n]);
      var lastIsFine := shown[n].Some? && Clamped(prev, shown[n].value) ==>
        InReading(shown[n].value, part) == InReading(prev, part);
      assert NoneSwallowed(shown, part) <==> NoneSwallowed(shown[..n], part) && lastIsFine;
    }
  }

  // ---- Readings of a log ----

  /** When the two loads of a reading happen. */
  datatype Look = Look(calls: nat, confirmed: nat)

  /** Calls is loaded before confirmed, and one tick's loads come before the next tick's. */
  ghost predicate InOrder(looks: seq<Option<Look>>, end: nat) {
    && (forall i | 0 <= i < |looks| && looks[i].Some? :: looks[i].value.calls <= looks[i].value.confirmed <= end)
    && (forall i, j | 0 <= i < j < |looks| && looks[i].Some? && looks[j].Some? ::
          looks[i].value.confirmed <= looks[j].value.calls)
    && (forall i, j | 0 <= i < j < |looks| && looks[i].Some? :: looks[j].Some?)
  }

  function ReadAt(log: seq<Op>, look: Look, scope: Scope, model: Model): Reading
    requires look.calls <= |log| && look.confirmed <= |log|
  {
    Reading(Count(log[..look.calls], scope, model, Calls), Count(log[..look.confirmed], scope, model, Confirmed))
  }

  ghost function Readings(log: seq<Op>, looks: seq<Option<Look>>, scope: Scope, model: Model): seq<Option<Reading>>
    requires InOrder(looks, |log|)
  {
    seq(|looks|, i requires 0 <= i < |looks| =>
      if looks[i].Some? then Some(ReadAt(log, looks[i].value, scope, model)) else None)
  }

  lemma {:induction false} LogPrefix(programs: seq<seq<Item>>, schedule: seq<nat>, k: nat)
    requires IsSchedule(programs, schedule) && k <= |schedule|
    ensures IsSchedule(programs, schedule[..k])
    ensures Log(programs, schedule)[..k] == Log(programs, schedule[..k])
  {
    hide Program, Done;
    if schedule == [] {
      assert schedule[..k] == schedule;
    } else {
      var n := |schedule| - 1;
      if k <= n {
        LogPrefix(programs, schedule[..n], k);
        assert schedule[..n][..k] == schedule[..k];
      } else {
        LogPrefix(programs, schedule[..n], n);
        assert schedule[..k] == schedule;
      }
    }
  }

  /** Calls and confirmations are counted one at a time. */
  ghost predicate Ones(ops: seq<Op>) {
    forall k | 0 <= k < |ops| && ops[k].Add? && ops[k].field != Ms :: ops[k].amount == 1
  }

  lemma {:induction false} ProgramOnes(items: seq<Item>)
    ensures Ones(Program(items))
  {
    if items != [] {
      ProgramOnes(items[..|items| - 1]);
      assert Ones(Ops(items[|items| - 1]));
    }
  }

  lemma {:induction false} LogOnes(programs: seq<seq<Item>>, schedule: seq<nat>)
    requires IsSchedule(programs, schedule)
    ensures Ones(Log(programs, schedule))
  {
    hide Program, Done;
    if schedule != [] {
      var n := |schedule| - 1;
      LogOnes(programs, schedule[..n]);
      ProgramOnes(programs[schedule[n]]);
    }
  }

  /** Counters only grow along a log. */
  lemma {:induction false} CountGrows(log: seq<Op>, a: nat, b: nat, scope: Scope, model: Model, field: Field)
    requires Ones(log) && a <= b <= |log| && field != Ms
    ensures Count(log[..a], scope, model, field) <= Count(log[..b], scope, model, field)
  {
    if a < b {
      CountGrows(log, a, b - 1, scope, model, field);
      assert log[..b][..b - 1] == log[..b - 1];
    }
  }

  lemma CountSplits(log: seq<Op>, a: nat, b: nat, scope: Scope, model: Model, field: Field)
    requires a <= b <= |log|
    ensures Count(log[..b], scope, model, field) ==
            Count(log[..a], scope, model, field) + Count(log[a..b], scope, model, field)
  {
    hide Sum;
    assert log[..b] == log[..a] + log[a..b];
    SumAppend(log[..a], log[a..b], WeightOf(scope, model, field));
  }

  /** The confirmations that land between the two loads of a reading. */
  function Landed(log: seq<Op>, look: Look, scope: Scope, model: Model): int
    requires look.calls <= look.confirmed <= |log|
  {
    Count(log[look.calls..look.confirmed], scope, model, Confirmed)
  }

  /**
   What tearing does to a reading: filtered is what one moment would have shown, which is never
   negative, less the confirmations that landed between the loads. So it is negative exactly when more
   landed than were unconfirmed at the first load, and off by at most one exactly when at most one landed.
   */
  lemma TornReadingDrift(programs: seq<seq<Item>>, schedule: seq<nat>, look: Look, scope: Scope, model: Model)
    requires IsSchedule(programs, schedule) && look.calls <= look.confirmed <= |schedule|
    ensures
      var log := Log(programs, schedule);
      var torn := ReadAt(log, look, scope, model).Filtered();
      var whole := ReadAt(log, Look(look.calls, look.calls), scope, model).Filtered();
      var landed := Landed(log, look, scope, model);
      && torn == whole - landed && whole >= 0 && landed >= 0
      && (torn < 0 <==> landed > whole)
      && (whole - torn <= 1 <==> landed <= 1)
  {
    hide Log, Ones, Count;
    var log := Log(programs, schedule);
    var a, b := look.calls, look.confirmed;
    LogPrefix(programs, schedule, a);
    ConfirmedWithinCalls(programs, schedule[..a], scope, model);
    LogOnes(programs, schedule);
    CountGrows(log, a, b, scope, model, Confirmed);
    CountSplits(log, a, b, scope, model, Confirmed);
  }

  /** One reading's calls are at least the previous one's, and so are its confirmations. */
  lemma ReadingGrows(log: seq<Op>, looks: seq<Option<Look>>, scope: Scope, model: Model, n: nat, part: Part)
    requires Ones(log) && InOrder(looks, |log|) && n < |looks| && looks[n].Some? && part != FilteredPart
    ensures
      var shown := Readings(log, looks, scope, model);
      InReading(shown[n].value, part) >= InReading(PrevReading(shown[..n]), part)
  {
    hide Count, Ones;
    var field := if part == CallsPart then Calls else Confirmed;
    var at := if part == CallsPart then looks[n].value.calls else looks[n].value.confirmed;
    StartsAtZero(log, at, scope, model, field);
    if n > 0 && looks[n - 1].Some? {
      var was := if part == CallsPart then looks[n - 1].value.calls else looks[n - 1].value.confirmed;
      CountGrows(log, was, at, scope, model, field);
    }
  }

  lemma ReadingsNeverFall(log: seq<Op>, looks: seq<Option<Look>>, scope: Scope, model: Model, part: Part)
    requires Ones(log) && InOrder(looks, |log|) && part != FilteredPart
    ensures NeverFalls(Readings(log, looks, scope, model), part)
  {
    hide Ones, PrevReading, ReadAt;
    var shown := Readings(log, looks, scope, model);
    forall n | 0 <= n < |shown| && shown[n].Some?
      ensures InReading(shown[n].value, part) >= InReading(PrevReading(shown[..n]), part)
    {
      ReadingGrows(log, looks, scope, model, n, part);
    }
  }

  lemma StartsAtZero(log: seq<Op>, at: nat, scope: Scope, model: Model, field: Field)
    requires Ones(log) && at <= |log| && field != Ms
    ensures Count(log[..at], scope, model, field) >= 0
  {
    CountGrows(log, 0, at, scope, model, field);
    assert Count(log[..0], scope, model, field) == 0;
  }

  /**
   What is written for a scope falls short of the last look by what clamping swallowed, in calls, confirmed
   and filtered alike. Calls and confirmed never exceed their counter, whatever the interleaving, and equal
   it exactly when no clamped tick saw new ones.
   */
  lemma WrittenWithinCounter(programs: seq<seq<Item>>, schedule: seq<nat>, looks: seq<Option<Look>>, scope: Scope,
                             model: Model, part: Part)
    requires IsSchedule(programs, schedule) && InOrder(looks, |schedule|)
    ensures
      var shown := Readings(Log(programs, schedule), looks, scope, model);
      var last := InReading(PrevReading(shown), part);
      && last - Written(shown, part) == Lost(shown, part)
      && (part != FilteredPart ==> Written(shown, part) <= last)
      && (part != FilteredPart ==> (Written(shown, part) == last <==> NoneSwallowed(shown, part)))
      && (Unclamped(shown) ==> Written(shown, part) == last)
  {
    hide Log, Written, Lost, Count, Ones, Unclamped, NoneSwallowed, NeverFalls, PrevReading, InReading;
    LogOnes(programs, schedule);
    var log := Log(programs, schedule);
    var shown := Readings(log, looks, scope, model);
    WrittenPlusLost(shown, part);
    if Unclamped(shown) { UnclampedLosesNothing(shown, part); }
    if part != FilteredPart {
      ReadingsNeverFall(log, looks, scope, model, part);
      LostIffSwallowed(shown, part);
    }
  }

  /**
   When a tick is clamped: exactly when, since the last tick, the confirmations that landed between
   the loads have grown by more than the calls that were still unconfirmed at the first load. The
   tick before the first one reads as `Look(0, 0)`.
   */
  lemma ClampedIff(programs: seq<seq<Item>>, schedule: seq<nat>, p: Look, q: Look, scope: Scope, model: Model)
    requires IsSchedule(programs, schedule)
    requires p.calls <= p.confirmed <= q.calls <= q.confirmed <= |schedule|
    ensures
      var log := Log(programs, schedule);
      Clamped(ReadAt(log, p, scope, model), ReadAt(log, q, scope, model)) <==>
        Landed(log, q, scope, model) - Landed(log, p, scope, model) >
        Unconfirmed(log, q.calls, scope, model) - Unconfirmed(log, p.calls, scope, model)
    ensures ReadAt(Log(programs, schedule), Look(0, 0), scope, model) == NOTHING
  {
    hide Log, Ones, Sum, Landed;
    var log := Log(programs, schedule);
    TornReadingDrift(programs, schedule, p, scope, model);
    TornReadingDrift(programs, schedule, q, scope, model);
    LogOnes(programs, schedule);
    CountGrows(log, p.calls, q.calls, scope, model, Calls);
    CountGrows(log, p.confirmed, q.confirmed, scope, model, Confirmed);
    assert log[..0] == [];
    Empty(WeightOf(scope, model, Calls));
    Empty(WeightOf(scope, model, Confirmed));
  }

  /** The calls not yet confirmed at one moment. */
  function Unconfirmed(log: seq<Op>, at: nat, scope: Scope, model: Model): int
    requires at <= |log|
  {
    ReadAt(log, Look(at, at), scope, model).Filtered()
  }

  function ScopeOf(site: string): Scope {
    if site == "" then Global else Site(site)
  }

  /**
   The sampler against the counters: whatever inferences ran between its loads, the calls and the
   confirmations it has written for a service, globally or for a site, are at most the counter's
   value at the last load, and equal it exactly when no clamped tick saw new ones. When no tick was
   clamped, calls, confirmed and filtered all equal what the last look showed.
   */
  lemma RowsWithinCounter(programs: seq<seq<Item>>, schedule: seq<nat>, looks: seq<Option<Look>>,
                          snaps: seq<Snapshot>, service: Model, site: string)
    requires IsSchedule(programs, schedule) && InOrder(looks, |schedule|)
    requires forall i | 0 <= i < |snaps| :: OneEach(snaps[i].sites)
    requires AllShown(snaps, service, site) == Readings(Log(programs, schedule), looks, ScopeOf(site), service)
    ensures
      var (shown, rows) := (AllShown(snaps, service, site), RunRows(snaps));
      var last := PrevReading(shown);
      var calls := RowSum(rows, service, site, CallsPart);
      var confirmed := RowSum(rows, service, site, ConfirmedPart);
      && calls <= last.calls && (calls == last.calls <==> NoneSwallowed(shown, CallsPart))
      && confirmed <= last.confirmed && (confirmed == last.confirmed <==> NoneSwallowed(shown, ConfirmedPart))
      && (Unclamped(shown) ==>
            (calls, confirmed, RowSum(rows, service, site, FilteredPart)) ==
            (last.calls, last.confirmed, last.calls - last.confirmed))
  {
    hide Log, Written, Lost, RowSum, RunRows, Unclamped, NoneSwallowed, PrevReading, OneEach, Shown;
    forall part: Part
      ensures RowSum(RunRows(snaps), service, site, part) == Written(AllShown(snaps, service, site), part)
    {
      RowsAreDifferences(snaps, service, site, part);
    }
    WrittenWithinCounter(programs, schedule, looks, ScopeOf(site), service, CallsPart);
    WrittenWithinCounter(programs, schedule, looks, ScopeOf(site), service, ConfirmedPart);
    WrittenWithinCounter(programs, schedule, looks, ScopeOf(site), service, FilteredPart);
  }

  // ---- The drift of a torn reading has no bound ----

  function Repeat(item: Item, n: nat): seq<Item> {
    if n == 0 then [] else Repeat(item, n - 1) + [item]
  }

  const HIT: Item := Infer(Yolo, "", 0, true)

  lemma {:induction false} RepeatedHits(n: nat)
    ensures |Program(Repeat(HIT, n))| == 3 * n
    ensures Count(Program(Repeat(HIT, n)), Global, Yolo, Confirmed) == n
  {
    hide Sum, Ops, Repeat, Weight;
    if n == 0 {
      RepeatLength(0);
      Empty(WeightOf(Global, Yolo, Confirmed));
    } else {
      RepeatedHits(n - 1);
      RepeatLength(n - 1);
      RepeatLength(n);
      var items := Repeat(HIT, n);
      SumAppend(Program(items[..n - 1]), Ops(HIT), WeightOf(Global, Yolo, Confirmed));
      HitCount();
    }
  }

  lemma HitCount()
    ensures |Ops(HIT)| == 3
    ensures Count(Ops(HIT), Global, Yolo, Confirmed) == 1 && Count(Ops(HIT), Global, Yolo, Calls) == 1
  {
    hide Sum, Block;
    BlockSizes(HIT);
    BlockPrefix(Global, Yolo, 0, true, 3, WeightOf(Global, Yolo, Confirmed));
    BlockPrefix(Global, Yolo, 0, true, 3, WeightOf(Global, Yolo, Calls));
    assert Ops(HIT) == Block(Global, Yolo, 0, true)[..3];
  }

  lemma {:induction false} RepeatLength(n: nat)
    ensures |Repeat(HIT, n)| == n
    ensures n > 0 ==> Repeat(HIT, n)[..n - 1] == Repeat(HIT, n - 1) && Repeat(HIT, n)[n - 1] == HIT
  {
    if n > 0 { RepeatLength(n - 1); }
  }

  lemma {:induction false} OneGoroutine(items: seq<Item>, n: nat)
    requires n <= |Program(items)|
    ensures
      var schedule := seq(n, _ => 0);
      IsSchedule([items], schedule) && Done(schedule, 0) == n && Log([items], schedule) == Program(items)[..n]
  {
    hide Program;
    var schedule := seq(n, _ => 0);
    if n > 0 {
      OneGoroutine(items, n - 1);
      assert schedule[..n - 1] == seq(n - 1, _ => 0);
    }
  }

  /**
   One goroutine may finish n inferences between the two loads of a reading, and filtered then
   shows -n: the drift is not bounded by one inference in flight.
   */
  lemma FilteredCanBeNegative(n: nat) returns (programs: seq<seq<Item>>, schedule: seq<nat>, look: Look)
    ensures IsSchedule(programs, schedule) && look.calls <= look.confirmed <= |schedule|
    ensures ReadAt(Log(programs, schedule), look, Global, Yolo).Filtered() == -(n as int)
  {
    hide Program, Done;
    var items := Repeat(HIT, n);
    RepeatedHits(n);
    programs, schedule, look := [items], seq(3 * n, _ => 0), Look(0, 3 * n);
    OneGoroutine(items, 3 * n);
    LogPrefix(programs, schedule, 3 * n);
    var log := Log(programs, schedule);
    assert log == Program(items) by { assert Program(items)[..3 * n] == Program(items); }
    assert log[..3 * n] == log && log[..0] == [];
  }

  /**
   Clamping loses real calls: for every n there is an interleaving in which a single torn tick
   sees n new calls, writes none of them, and the written total stays n below the counter.
   */
  lemma ClampingLosesCalls(n: nat) returns (programs: seq<seq<Item>>, schedule: seq<nat>, look: Look)
    ensures IsSchedule(programs, schedule) && look.calls <= look.confirmed <= |schedule|
    ensures InOrder([Some(look)], |schedule|)
    ensures
      var shown := Readings(Log(programs, schedule), [Some(look)], Global, Yolo);
      Written(shown, CallsPart) == 0 && PrevReading(shown).calls == n && Lost(shown, CallsPart) == n
  {
    hide Program, Done;
    var items := Repeat(HIT, n + 1);
    RepeatedHits(n);
    RepeatedHits(n + 1);
    RepeatLength(n + 1);
    programs, schedule, look := [items], seq(3 * (n + 1), _ => 0), Look(3 * n, 3 * n + 3);
    OneGoroutine(items, 3 * (n + 1));
    var log := Log(programs, schedule);
    assert log == Program(items) by { assert Program(items)[..3 * n + 3] == Program(items); }
    FirstHits(n);
    assert log[..3 * n + 3] == log;
    OneTick(log, look, n);
  }

  lemma FirstHits(n: nat)
    ensures |Program(Repeat(HIT, n + 1))| == 3 * n + 3
    ensures Program(Repeat(HIT, n + 1))[..3 * n] == Program(Repeat(HIT, n))
    ensures Count(Program(Repeat(HIT, n)), Global, Yolo, Calls) == n
  {
    hide Ops;
    RepeatedHits(n);
    RepeatedHits(n + 1);
    RepeatLength(n + 1);
    RepeatedCalls(n);
  }

  lemma OneTick(log: seq<Op>, look: Look, n: nat)
    requires look.calls <= look.confirmed <= |log| && InOrder([Some(look)], |log|)
    requires ReadAt(log, look, Global, Yolo) == Reading(n, n + 1)
    ensures
      var shown := Readings(log, [Some(look)], Global, Yolo);
      Written(shown, CallsPart) == 0 && PrevReading(shown).calls == n && Lost(shown, CallsPart) == n
  {
    var shown := Readings(log, [Some(look)], Global, Yolo);
    assert shown == [Some(Reading(n, n + 1))];
    assert shown[..0] == [];
  }

  lemma {:induction false} RepeatedCalls(n: nat)
    ensures Count(Program(Repeat(HIT, n)), Global, Yolo, Calls) == n
  {
    hide Sum, Ops, Repeat, Weight;
    if n == 0 {
      RepeatLength(0);
      Empty(WeightOf(Global, Yolo, Calls));
    } else {
      RepeatedCalls(n - 1);
      RepeatLength(n - 1);
      RepeatLength(n);
      SumAppend(Program(Repeat(HIT, n)[..n - 1]), Ops(HIT), WeightOf(Global, Yolo, Calls));
      HitCount();
    }
  }
}
