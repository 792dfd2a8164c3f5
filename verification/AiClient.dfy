/** The client that counts, seen by one goroutine: every call adds its items' operations to the log. */
module AiClientModel {
  import opened Text
  import opened AiCounters

  datatype Tally = Tally(calls: int, ms: int, confirmed: int)
  datatype Tallies = Tallies(yolo: Tally, qwen: Tally)

  const NO_TALLY: Tally := Tally(0, 0, 0)
  const NO_TALLIES: Tallies := Tallies(NO_TALLY, NO_TALLY)

  function Get(t: Tallies, model: Model, field: Field): int {
    var one := if model.Yolo? then t.yolo else t.qwen;
    match field case Calls => one.calls case Ms => one.ms case Confirmed => one.confirmed
  }

  function Counted(t: Tally, ms: int, confirmed: bool): Tally {
    Tally(t.calls + 1, t.ms + ms, if confirmed then t.confirmed + 1 else t.confirmed)
  }

  function CountedIn(t: Tallies, model: Model, ms: int, confirmed: bool): Tallies {
    if model.Yolo? then t.(yolo := Counted(t.yolo, ms, confirmed)) else t.(qwen := Counted(t.qwen, ms, confirmed))
  }

  /** What the services answered; None is a failed call. */
  datatype YoloAnswer = YoloAnswer(ms: int, detections: nat)
  datatype QwenAnswer = QwenAnswer(ms: int, threatLevel: string, falsePositivePct: real)
  datatype Outcome = NoResult | NothingDetected | YoloOnly | Full

  predicate Actionable(q: QwenAnswer) {
    q.threatLevel != "" && q.threatLevel != "none" && q.falsePositivePct < 0.5
  }

  function VideoItems(ready: bool, site: string, qwen: Option<QwenAnswer>): seq<Item> {
    if !ready then []
    else if qwen.None? then [Touch(site)]
    else [Touch(site), Infer(Qwen, site, qwen.value.ms, Actionable(qwen.value))]
  }

  function AnalyzeItems(ready: bool, site: string, yolo: Option<YoloAnswer>, qwen: Option<QwenAnswer>): seq<Item> {
    if !ready then []
    else if yolo.None? then [Touch(site)]
    else
      var first := [Touch(site), Infer(Yolo, site, yolo.value.ms, yolo.value.detections > 0)];
      if yolo.value.detections == 0 || qwen.None? then first
      else first + [Infer(Qwen, site, qwen.value.ms, Actionable(qwen.value))]
  }

  /** A site's counters; a site without any stands at zero. */
  function At(siteStats: map<string, Tallies>, id: string): Tallies {
    if id in siteStats then siteStats[id] else NO_TALLIES
  }

  function Plus(t: Tally, d: Tally): Tally {
    Tally(t.calls + d.calls, t.ms + d.ms, t.confirmed + d.confirmed)
  }

  /** The counters have grown by these, globally and for the site, if it has a name, and nowhere else. */
  ghost predicate Grew(was: Tallies, now: Tallies, wasSites: map<string, Tallies>, nowSites: map<string, Tallies>,
                       site: string, yolo: Tally, qwen: Tally) {
    && now.yolo == Plus(was.yolo, yolo) && now.qwen == Plus(was.qwen, qwen)
    && (forall id | id != site || site == "" :: At(nowSites, id) == At(wasSites, id))
    && (site != "" ==> At(nowSites, site).yolo == Plus(At(wasSites, site).yolo, yolo) &&
                       At(nowSites, site).qwen == Plus(At(wasSites, site).qwen, qwen))
  }

  lemma GrewTwice(a: Tallies, b: Tallies, c: Tallies, x: map<string, Tallies>, y: map<string, Tallies>,
                  z: map<string, Tallies>, site: string, d: (Tally, Tally), e: (Tally, Tally))
    requires Grew(a, b, x, y, site, d.0, d.1) && Grew(b, c, y, z, site, e.0, e.1)
    ensures Grew(a, c, x, z, site, Plus(d.0, e.0), Plus(d.1, e.1))
  {
    hide At, Plus;
    PlusTwice(a.yolo, d.0, e.0);
    PlusTwice(a.qwen, d.1, e.1);
    PlusTwice(At(x, site).yolo, d.0, e.0);
    PlusTwice(At(x, site).qwen, d.1, e.1);
  }

  lemma PlusTwice(t: Tally, d: Tally, e: Tally)
    ensures Plus(Plus(t, d), e) == Plus(t, Plus(d, e))
  {
  }

  lemma GrewNot(t: Tallies, sites: map<string, Tallies>, site: string)
    ensures Grew(t, t, sites, sites, site, NO_TALLY, NO_TALLY)
  {
  }

  lemma PlusNone(t: Tally)
    ensures Plus(t, NO_TALLY) == t == Plus(NO_TALLY, t)
  {
  }

  lemma QwenTallyIs(q: QwenAnswer)
    ensures QwenTally(q) == Tally(1, q.ms, if Actionable(q) then 1 else 0)
  {
  }

  /** One call, its time, and a confirmation if a threat is named that is probably not a false alarm. */
  ghost function QwenTally(q: QwenAnswer): Tally {
    var confirmed := q.threatLevel !in {"", "none"} && q.falsePositivePct < 0.5;
    Tally(1, q.ms, if confirmed then 1 else 0)
  }

  class AiClient {
    var global: Tallies
    var siteStats: map<string, Tallies>
    ghost var log: seq<Op>

    ghost predicate Valid()
      reads this
    {
      Shows(global, siteStats, log)
    }

    constructor ()
      ensures Valid() && log == [] && siteStats == map[]
    {
      global, siteStats, log := NO_TALLIES, map[], [];
    }

    /** Looks the site's counters up, creating them at zero; there are none for the empty id. */
    method CounterFor(siteID: string) returns (found: bool)
      requires Valid()
      modifies this`siteStats, this`log
      ensures Valid() && log == old(log) + Ops(Touch(siteID))
      ensures found <==> siteID != ""
      ensures found ==> siteID in siteStats
      ensures forall id | id in old(siteStats) :: id in siteStats && siteStats[id] == old(siteStats[id])
      ensures Grew(global, global, old(siteStats), siteStats, siteID, NO_TALLY, NO_TALLY)
    {
      TouchShows(global, siteStats, log, siteID);
      log := log + Ops(Touch(siteID));
      if siteID == "" {
        return false;
      }
      if siteID !in siteStats {
        siteStats := siteStats[siteID := NO_TALLIES];
      }
      return true;
    }

    method CountInference(model: Model, siteID: string, ms: int, confirmed: bool)
      requires Valid() && (siteID != "" ==> siteID in siteStats)
      modifies this
      ensures Valid() && log == old(log) + Ops(Infer(model, siteID, ms, confirmed))
      ensures forall id | id in old(siteStats) :: id in siteStats
      ensures
        var d := Tally(1, ms, if confirmed then 1 else 0);
        Grew(old(global), global, old(siteStats), siteStats, siteID, if model.Yolo? then d else NO_TALLY,
             if model.Qwen? then d else NO_TALLY)
    {
      InferShows(global, siteStats, log, Infer(model, siteID, ms, confirmed));
      log := log + Ops(Infer(model, siteID, ms, confirmed));
      global := CountedIn(global, model, ms, confirmed);
      if siteID != "" {
        siteStats := siteStats[siteID := CountedIn(siteStats[siteID], model, ms, confirmed)];
      }
    }

    /** `ready`: the pipeline is enabled and the frame is not empty. */
    method Analyze(ready: bool, siteID: string, yolo: Option<YoloAnswer>, qwen: Option<QwenAnswer>)
      returns (result: Outcome)
      requires Valid()
      modifies this
      ensures Valid() && log == old(log) + Program(AnalyzeItems(ready, siteID, yolo, qwen))
      ensures
        var (seen, asked) := (ready && yolo.Some?, ready && yolo.Some? && yolo.value.detections > 0 && qwen.Some?);
        Grew(old(global), global, old(siteStats), siteStats, siteID,
             if seen then Tally(1, yolo.value.ms, if yolo.value.detections > 0 then 1 else 0) else NO_TALLY,
             if asked then QwenTally(qwen.value) else NO_TALLY)
      ensures result == NoResult <==> !ready || yolo.None?
      ensures result == Full <==> ready && yolo.Some? && yolo.value.detections > 0 && qwen.Some?
      ensures result == NothingDetected <==> ready && yolo.Some? && yolo.value.detections == 0
    {
      hide Shows, Ops, Program, Grew, At, Plus, QwenTally;
      ghost var items := AnalyzeItems(ready, siteID, yolo, qwen);
      ProgramOf(items);
      GrewNot(global, siteStats, siteID);
      if !ready {
        return NoResult;
      }
      ghost var start, sites := global, siteStats;
      var site := CounterFor(siteID);
      if yolo.None? {
        return NoResult;
      }
      var y := yolo.value;
      ghost var sites1 := siteStats;
      ghost var d := Tally(1, y.ms, if y.detections > 0 then 1 else 0);
      CountInference(Yolo, siteID, y.ms, y.detections > 0);
      GrewTwice(start, start, global, sites, sites1, siteStats, siteID, (NO_TALLY, NO_TALLY), (d, NO_TALLY));
      PlusNone(d);
      PlusNone(NO_TALLY);
      if y.detections == 0 {
        return NothingDetected;
      }
      if qwen.None? {
        return YoloOnly;
      }
      ghost var seen, sites2 := global, siteStats;
      ghost var e := QwenTally(qwen.value);
      QwenTallyIs(qwen.value);
      CountInference(Qwen, siteID, qwen.value.ms, Actionable(qwen.value));
      GrewTwice(start, seen, global, sites, sites2, siteStats, siteID, (d, NO_TALLY), (NO_TALLY, e));
      PlusNone(e);
      return Full;
    }

    /** `ready`: the pipeline is enabled, Qwen is up and the clip has at least 1000 bytes. */
    method AnalyzeVideo(ready: bool, siteID: string, qwen: Option<QwenAnswer>) returns (result: Option<QwenAnswer>)
      requires Valid()
      modifies this
      ensures Valid() && log == old(log) + Program(VideoItems(ready, siteID, qwen))
      ensures Grew(old(global), global, old(siteStats), siteStats, siteID, NO_TALLY,
                   if ready && qwen.Some? then QwenTally(qwen.value) else NO_TALLY)
      ensures result == if ready then qwen else None
    {
      hide Shows, Ops, Program, Grew, At, Plus, QwenTally;
      ProgramOf(VideoItems(ready, siteID, qwen));
      GrewNot(global, siteStats, siteID);
      if !ready {
        return None;
      }
      ghost var start, sites := global, siteStats;
      var site := CounterFor(siteID);
      if qwen.None? {
        return None;
      }
      ghost var sites1 := siteStats;
      ghost var e := QwenTally(qwen.value);
      QwenTallyIs(qwen.value);
      CountInference(Qwen, siteID, qwen.value.ms, Actionable(qwen.value));
      GrewTwice(start, start, global, sites, sites1, siteStats, siteID, (NO_TALLY, NO_TALLY), (NO_TALLY, e));
      PlusNone(e);
      PlusNone(NO_TALLY);
      return qwen;
    }
  }

  /** The fields hold the values the log gives. */
  ghost predicate Shows(global: Tallies, siteStats: map<string, Tallies>, log: seq<Op>) {
    && (forall model, field :: Get(global, model, field) == Count(log, Global, model, field))
    && (forall id, model, field ::
          Count(log, Site(id), model, field) == if id in siteStats then Get(siteStats[id], model, field) else 0)
  }

  lemma ProgramOf(items: seq<Item>)
    requires |items| <= 3
    ensures items == [] ==> Program(items) == []
    ensures |items| == 1 ==> Program(items) == Ops(items[0])
    ensures |items| == 2 ==> Program(items) == Ops(items[0]) + Ops(items[1])
    ensures |items| == 3 ==> Program(items) == Ops(items[0]) + Ops(items[1]) + Ops(items[2])
    ensures forall log: seq<Op>, a: seq<Op>, b: seq<Op> :: log + (a + b) == log + a + b
    ensures forall log: seq<Op> :: log + [] == log
  {
    hide Ops;
    if |items| >= 1 { assert items[..1][..0] == [] && Program(items[..1]) == [] + Ops(items[0]); }
    if |items| >= 2 {
      assert items[..2][..1] == items[..1] && Program(items[..2]) == Program(items[..1]) + Ops(items[1]);
    }
    if |items| == 3 { assert items[..3] == items; }
    if |items| == 2 { assert items[..2] == items; }
    if |items| == 1 { assert items[..1] == items; }
  }

  function ItemValue(item: Item, scope: Scope, model: Model, field: Field): int
    requires item.Infer?
  {
    if item.model != model || (scope != Global && (scope != Site(item.site) || item.site == "")) then 0
    else
      match field
      case Calls => 1
      case Ms => item.ms
      case Confirmed => if item.confirmed then 1 else 0
  }

  /** What one item adds to a counter. */
  lemma ItemCount(item: Item, scope: Scope, model: Model, field: Field)
    ensures item.Touch? ==> Count(Ops(item), scope, model, field) == 0
    ensures item.Infer? ==> Count(Ops(item), scope, model, field) == ItemValue(item, scope, model, field)
  {
    hide Sum, Block;
    var w, ops := WeightOf(scope, model, field), Ops(item);
    assert ops[..|ops|] == ops;
    if item.Touch? {
      TouchPrefix(item, |ops|, w);
    } else {
      BlockSizes(item);
      OpsPrefix(item, |ops|, w);
      var k := if item.confirmed then 3 else 2;
      BlockPrefix(Global, item.model, item.ms, item.confirmed, k, w);
      BlockPrefix(Site(item.site), item.model, item.ms, item.confirmed, k, w);
    }
  }

  lemma TouchShows(global: Tallies, siteStats: map<string, Tallies>, log: seq<Op>, site: string)
    requires Shows(global, siteStats, log)
    ensures Shows(global, siteStats, log + Ops(Touch(site)))
    ensures site !in siteStats ==> Shows(global, siteStats[site := NO_TALLIES], log + Ops(Touch(site)))
  {
    hide Ops, Sum;
    forall scope, model, field
      ensures Count(log + Ops(Touch(site)), scope, model, field) == Count(log, scope, model, field)
    {
      SumAppend(log, Ops(Touch(site)), WeightOf(scope, model, field));
      ItemCount(Touch(site), scope, model, field);
    }
  }

  lemma InferShows(global: Tallies, siteStats: map<string, Tallies>, log: seq<Op>, item: Item)
    requires Shows(global, siteStats, log) && item.Infer? && (item.site != "" ==> item.site in siteStats)
    ensures
      Shows(CountedIn(global, item.model, item.ms, item.confirmed),
            if item.site == "" then siteStats
            else siteStats[item.site := CountedIn(siteStats[item.site], item.model, item.ms, item.confirmed)],
            log + Ops(item))
  {
    hide Ops, Sum;
    forall scope, model, field
      ensures Count(log + Ops(item), scope, model, field) ==
        Count(log, scope, model, field) + Count(Ops(item), scope, model, field)
    {
      SumAppend(log, Ops(item), WeightOf(scope, model, field));
    }
    forall scope, model, field { ItemCount(item, scope, model, field); }
  }
}
