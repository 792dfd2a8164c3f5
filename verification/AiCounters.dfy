/**
 The AI pipeline's counters: atomic additions by concurrent inferences, global first and then per
 site, with no lock around them. A log is the order in which the additions took effect; a reader
 that loads one counter at a time sees a different point of the log with each load.
 */
module AiCounters {

  datatype Model = Yolo | Qwen
  datatype Field = Calls | Ms | Confirmed
  datatype Scope = Global | Site(id: string)
  datatype Op = Know(id: string) | Add(scope: Scope, model: Model, field: Field, amount: int)

  /** Part of a goroutine: it looks its site's counters up, or it counts one finished inference. */
  datatype Item = Touch(site: string) | Infer(model: Model, site: string, ms: int, confirmed: bool)

  function Block(scope: Scope, model: Model, ms: int, confirmed: bool): seq<Op> {
    [Add(scope, model, Calls, 1), Add(scope, model, Ms, ms)] +
    (if confirmed then [Add(scope, model, Confirmed, 1)] else [])
  }

  /** The additions of an item, in program order. An empty site id has no counters of its own. */
  function Ops(item: Item): seq<Op> {
    match item
    case Touch(site) => if site == "" then [] else [Know(site)]
    case Infer(model, site, ms, confirmed) =>
      Block(Global, model, ms, confirmed) + (if site == "" then [] else Block(Site(site), model, ms, confirmed))
  }

  function Program(items: seq<Item>): seq<Op> {
    if items == [] then [] else Program(items[..|items| - 1]) + Ops(items[|items| - 1])
  }

  function Sum(ops: seq<Op>, w: Op -> int): int {
    if ops == [] then 0 else Sum(ops[..|ops| - 1], w) + w(ops[|ops| - 1])
  }

  function Weight(op: Op, scope: Scope, model: Model, field: Field): int {
    if op.Add? && op.scope == scope && op.model == model && op.field == field then op.amount else 0
  }

  function WeightOf(scope: Scope, model: Model, field: Field): Op -> int {
    op => Weight(op, scope, model, field)
  }

  /** The value of a counter after a log. */
  function Count(log: seq<Op>, scope: Scope, model: Model, field: Field): int {
    Sum(log, WeightOf(scope, model, field))
  }

  // ---- Interleavings ----

  /** How many operations goroutine i has done. */
  function Done(schedule: seq<nat>, i: nat): nat {
    if schedule == [] then 0
    else Done(schedule[..|schedule| - 1], i) + (if schedule[|schedule| - 1] == i then 1 else 0)
  }

  /** Each entry names a goroutine that still has an operation to do. */
  ghost predicate IsSchedule(programs: seq<seq<Item>>, schedule: seq<nat>) {
    schedule == [] ||
    var n := |schedule| - 1;
    IsSchedule(programs, schedule[..n]) && schedule[n] < |programs| &&
    Done(schedule[..n], schedule[n]) < |Program(programs[schedule[n]])|
  }

  /** The order in which the operations take effect. */
  function Log(programs: seq<seq<Item>>, schedule: seq<nat>): (log: seq<Op>)
    requires IsSchedule(programs, schedule)
    ensures |log| == |schedule|
  {
    if schedule == [] then []
    else
      var n := |schedule| - 1;
      Log(programs, schedule[..n]) + [Program(programs[schedule[n]])[Done(schedule[..n], schedule[n])]]
  }

  lemma {:induction false} DoneWithin(programs: seq<seq<Item>>, schedule: seq<nat>, i: nat)
    requires IsSchedule(programs, schedule) && i < |programs|
    ensures Done(schedule, i) <= |Program(programs[i])|
  {
    if schedule != [] { DoneWithin(programs, schedule[..|schedule| - 1], i); }
  }

  /** The part of goroutine i's program that has taken effect. */
  function Part(programs: seq<seq<Item>>, schedule: seq<nat>, i: nat): seq<Op>
    requires IsSchedule(programs, schedule) && i < |programs|
  {
    DoneWithin(programs, schedule, i);
    Program(programs[i])[..Done(schedule, i)]
  }

  /** The sum over the first n goroutines' parts. */
  function Parts(programs: seq<seq<Item>>, schedule: seq<nat>, n: nat, w: Op -> int): int
    requires IsSchedule(programs, schedule) && n <= |programs|
  {
    if n == 0 then 0 else Parts(programs, schedule, n - 1, w) + Sum(Part(programs, schedule, n - 1), w)
  }

  lemma SumSnoc(ops: seq<Op>, op: Op, w: Op -> int)
    ensures Sum(ops + [op], w) == Sum(ops, w) + w(op)
  {
    assert (ops + [op])[..|ops|] == ops;
  }

  lemma {:induction false} SumAppend(a: seq<Op>, b: seq<Op>, w: Op -> int)
    ensures Sum(a + b, w) == Sum(a, w) + Sum(b, w)
  {
    if b == [] {
      assert a + b == a;
    } else {
      var n := |b| - 1;
      SumAppend(a, b[..n], w);
      assert a + b == a + b[..n] + [b[n]];
      SumSnoc(a + b[..n], b[n], w);
    }
  }

  lemma DoneStep(schedule: seq<nat>, i: nat)
    requires schedule != []
    ensures
      var n := |schedule| - 1;
      Done(schedule, i) == Done(schedule[..n], i) + if schedule[n] == i then 1 else 0
  {
  }

  lemma PartStep(programs: seq<seq<Item>>, schedule: seq<nat>, i: nat, w: Op -> int)
    requires schedule != [] && IsSchedule(programs, schedule) && i < |programs|
    ensures
      var n := |schedule| - 1;
      Sum(Part(programs, schedule, i), w) == Sum(Part(programs, schedule[..n], i), w) +
        if schedule[n] == i then w(Program(programs[i])[Done(schedule[..n], i)]) else 0
  {
    hide Program, Sum, Done;
    var n := |schedule| - 1;
    DoneStep(schedule, i);
    if schedule[n] == i {
      var ops, k := Program(programs[i]), Done(schedule[..n], i);
      assert ops[..k + 1] == ops[..k] + [ops[k]];
      SumSnoc(ops[..k], ops[k], w);
    }
  }

  lemma {:induction false} PartsStep(programs: seq<seq<Item>>, schedule: seq<nat>, m: nat, w: Op -> int)
    requires schedule != [] && IsSchedule(programs, schedule) && m <= |programs|
    ensures
      var n := |schedule| - 1;
      Parts(programs, schedule, m, w) == Parts(programs, schedule[..n], m, w) +
        if schedule[n] < m then w(Program(programs[schedule[n]])[Done(schedule[..n], schedule[n])]) else 0
    decreases m
  {
    hide Program, Sum, Part, Done;
    if m > 0 {
      PartsStep(programs, schedule, m - 1, w);
      PartStep(programs, schedule, m - 1, w);
    }
  }

  /** A log adds up to what the goroutines have done so far. */
  lemma {:induction false} LogIsParts(programs: seq<seq<Item>>, schedule: seq<nat>, w: Op -> int)
    requires IsSchedule(programs, schedule)
    ensures Sum(Log(programs, schedule), w) == Parts(programs, schedule, |programs|, w)
  {
    hide Program, Sum, Part, Done;
    if schedule == [] {
      NothingDone(programs, |programs|, w);
    } else {
      var n := |schedule| - 1;
      LogIsParts(programs, schedule[..n], w);
      SumSnoc(Log(programs, schedule[..n]), Program(programs[schedule[n]])[Done(schedule[..n], schedule[n])], w);
      PartsStep(programs, schedule, |programs|, w);
    }
  }

  lemma {:induction false} NothingDone(programs: seq<seq<Item>>, m: nat, w: Op -> int)
    requires m <= |programs|
    ensures Parts(programs, [], m, w) == 0 == Sum(Log(programs, []), w)
  {
    if m > 0 { NothingDone(programs, m - 1, w); }
  }

  // ---- Weights that no prefix of an item makes negative ----

  ghost predicate NeverNegative(w: Op -> int) {
    forall item: Item, k: nat | k <= |Ops(item)| :: Sum(Ops(item)[..k], w) >= 0
  }

  lemma {:induction false} ProgramPrefix(items: seq<Item>, k: nat, w: Op -> int)
    requires NeverNegative(w) && k <= |Program(items)|
    ensures Sum(Program(items)[..k], w) >= 0
  {
    hide Ops, Sum;
    if items == [] {
      Empty(w);
      assert Program(items)[..k] == [];
    } else {
      var n := |items| - 1;
      var a, b := Program(items[..n]), Ops(items[n]);
      if k <= |a| {
        ProgramPrefix(items[..n], k, w);
        assert (a + b)[..k] == a[..k];
      } else {
        ProgramPrefix(items[..n], |a|, w);
        assert a[..|a|] == a && (a + b)[..k] == a + b[..k - |a|];
        SumAppend(a, b[..k - |a|], w);
        assert Sum(b[..k - |a|], w) >= 0;
      }
    }
  }

  lemma Empty(w: Op -> int)
    ensures Sum([], w) == 0
  {
  }

  lemma {:induction false} PartsNeverNegative(programs: seq<seq<Item>>, schedule: seq<nat>, m: nat, w: Op -> int)
    requires IsSchedule(programs, schedule) && m <= |programs| && NeverNegative(w)
    ensures Parts(programs, schedule, m, w) >= 0
    decreases m
  {
    hide Program, Sum, Done, NeverNegative;
    if m > 0 {
      PartsNeverNegative(programs, schedule, m - 1, w);
      DoneWithin(programs, schedule, m - 1);
      ProgramPrefix(programs[m - 1], Done(schedule, m - 1), w);
    }
  }

  /** Such a weight is never negative over a log, whatever the interleaving. */
  lemma LogNeverNegative(programs: seq<seq<Item>>, schedule: seq<nat>, w: Op -> int)
    requires IsSchedule(programs, schedule) && NeverNegative(w)
    ensures Sum(Log(programs, schedule), w) >= 0
  {
    LogIsParts(programs, schedule, w);
    PartsNeverNegative(programs, schedule, |programs|, w);
  }

  /** The sum over the first k operations of a block. */
  lemma BlockPrefix(scope: Scope, model: Model, ms: int, confirmed: bool, k: nat, w: Op -> int)
    requires k <= |Block(scope, model, ms, confirmed)|
    ensures Sum(Block(scope, model, ms, confirmed)[..k], w) ==
      (if k >= 1 then w(Add(scope, model, Calls, 1)) else 0) +
      (if k >= 2 then w(Add(scope, model, Ms, ms)) else 0) +
      (if k >= 3 then w(Add(scope, model, Confirmed, 1)) else 0)
  {
    hide Sum;
    var a, b, c := Add(scope, model, Calls, 1), Add(scope, model, Ms, ms), Add(scope, model, Confirmed, 1);
    Empty(w);
    SumSnoc([], a, w);
    SumSnoc([] + [a], b, w);
    SumSnoc([] + [a] + [b], c, w);
    var s := Block(scope, model, ms, confirmed)[..k];
    if k == 0 { assert s == []; }
    if k == 1 { assert s == [] + [a]; }
    if k == 2 { assert s == [] + [a] + [b]; }
    if k == 3 { assert s == [] + [a] + [b] + [c]; }
  }

  /** The sum over the first k operations of an item, block by block. */
  lemma OpsPrefix(item: Item, k: nat, w: Op -> int)
    requires k <= |Ops(item)| && item.Infer?
    ensures
      var g := Block(Global, item.model, item.ms, item.confirmed);
      var s := Block(Site(item.site), item.model, item.ms, item.confirmed);
      if k <= |g| then Sum(Ops(item)[..k], w) == Sum(g[..k], w)
      else k - |g| <= |s| && Sum(Ops(item)[..k], w) == Sum(g[..|g|], w) + Sum(s[..k - |g|], w)
  {
    hide Sum, Block;
    var g := Block(Global, item.model, item.ms, item.confirmed);
    var s := if item.site == "" then [] else Block(Site(item.site), item.model, item.ms, item.confirmed);
    if k <= |g| {
      assert Ops(item)[..k] == g[..k];
    } else {
      assert Ops(item)[..k] == g[..|g|] + s[..k - |g|];
      SumAppend(g[..|g|], s[..k - |g|], w);
    }
  }

  lemma TouchPrefix(item: Item, k: nat, w: Op -> int)
    requires k <= |Ops(item)| && item.Touch?
    requires forall id :: w(Know(id)) == 0
    ensures Sum(Ops(item)[..k], w) == 0
  {
    if k == 1 { assert Ops(item)[..1] == [Know(item.site)] && [Know(item.site)][..0] == []; }
  }

  // ---- Confirmed never exceeds calls ----

  function CallsMinusConfirmed(scope: Scope, model: Model): Op -> int {
    op => Weight(op, scope, model, Calls) - Weight(op, scope, model, Confirmed)
  }

  lemma BlockCallsFirst(at: Scope, item: Item, k: nat, scope: Scope, model: Model)
    requires item.Infer? && k <= |Block(at, item.model, item.ms, item.confirmed)|
    ensures Sum(Block(at, item.model, item.ms, item.confirmed)[..k], CallsMinusConfirmed(scope, model)) >= 0
  {
    hide Block, Sum;
    BlockPrefix(at, item.model, item.ms, item.confirmed, k, CallsMinusConfirmed(scope, model));
  }

  lemma CallsComeFirst(scope: Scope, model: Model)
    ensures NeverNegative(CallsMinusConfirmed(scope, model))
  {
    var w := CallsMinusConfirmed(scope, model);
    forall item: Item, k: nat | k <= |Ops(item)| ensures Sum(Ops(item)[..k], w) >= 0 {
      hide Ops, Block, Sum;
      if item.Touch? {
        TouchPrefix(item, k, w);
      } else {
        hide CallsMinusConfirmed;
        OpsPrefix(item, k, w);
        var g := |Block(Global, item.model, item.ms, item.confirmed)|;
        if k <= g {
          BlockCallsFirst(Global, item, k, scope, model);
        } else {
          BlockCallsFirst(Global, item, g, scope, model);
          BlockCallsFirst(Site(item.site), item, k - g, scope, model);
        }
      }
    }
  }

  lemma {:induction false} SumMinus(ops: seq<Op>, v: Op -> int, w: Op -> int, d: Op -> int)
    requires forall op :: d(op) == v(op) - w(op)
    ensures Sum(ops, d) == Sum(ops, v) - Sum(ops, w)
  {
    if ops != [] { SumMinus(ops[..|ops| - 1], v, w, d); }
  }

  /** At every moment of every interleaving, in each scope, confirmed is at most calls. */
  lemma ConfirmedWithinCalls(programs: seq<seq<Item>>, schedule: seq<nat>, scope: Scope, model: Model)
    requires IsSchedule(programs, schedule)
    ensures
      var log := Log(programs, schedule);
      Count(log, scope, model, Confirmed) <= Count(log, scope, model, Calls)
  {
    hide Log, Sum, Weight, NeverNegative;
    var w := CallsMinusConfirmed(scope, model);
    CallsComeFirst(scope, model);
    LogNeverNegative(programs, schedule, w);
    SumMinus(Log(programs, schedule), WeightOf(scope, model, Calls), WeightOf(scope, model, Confirmed), w);
  }

  // ---- Site counters never exceed the global ones ----

  function SitesWeight(op: Op, sites: set<string>, model: Model, field: Field): int {
    if op.Add? && op.scope.Site? && op.scope.id in sites && op.model == model && op.field == field then op.amount else 0
  }

  function SitesWeightOf(sites: set<string>, model: Model, field: Field): Op -> int {
    op => SitesWeight(op, sites, model, field)
  }

  function GlobalMinusSites(sites: set<string>, model: Model, field: Field): Op -> int {
    op => Weight(op, Global, model, field) - SitesWeight(op, sites, model, field)
  }

  lemma GlobalComesFirst(sites: set<string>, model: Model, field: Field)
    requires field != Ms
    ensures NeverNegative(GlobalMinusSites(sites, model, field))
  {
    hide Ops, Block, Sum;
    var w := GlobalMinusSites(sites, model, field);
    forall item: Item, k: nat | k <= |Ops(item)| ensures Sum(Ops(item)[..k], w) >= 0 {
      if item.Touch? {
        TouchPrefix(item, k, w);
      } else {
        OpsPrefix(item, k, w);
        var g := Block(Global, item.model, item.ms, item.confirmed);
        BlockSizes(item);
        if k <= |g| {
          BlockPrefix(Global, item.model, item.ms, item.confirmed, k, w);
        } else {
          BlockPrefix(Global, item.model, item.ms, item.confirmed, |g|, w);
          BlockPrefix(Site(item.site), item.model, item.ms, item.confirmed, k - |g|, w);
        }
      }
    }
  }

  lemma BlockSizes(item: Item)
    requires item.Infer?
    ensures |Block(Global, item.model, item.ms, item.confirmed)| == if item.confirmed then 3 else 2
    ensures |Block(Site(item.site), item.model, item.ms, item.confirmed)| == if item.confirmed then 3 else 2
  {
  }

  /** The sum of a counter over a set of sites. */
  ghost function SitesTotal(log: seq<Op>, sites: set<string>, model: Model, field: Field): int {
    if sites == {} then 0
    else
      var id :| id in sites;
      Count(log, Site(id), model, field) + SitesTotal(log, sites - {id}, model, field)
  }

  /** Adding up per site is adding up the additions of those sites. */
  lemma {:induction false} SitesTotalIs(log: seq<Op>, sites: set<string>, model: Model, field: Field)
    ensures SitesTotal(log, sites, model, field) ==
      Sum(log, SitesWeightOf(sites, model, field))
    decreases sites
  {
    hide Sum;
    if sites == {} {
      SumZero(log, SitesWeightOf(sites, model, field));
    } else {
      var id :| id in sites && SitesTotal(log, sites, model, field) ==
        Count(log, Site(id), model, field) + SitesTotal(log, sites - {id}, model, field);
      SitesTotalIs(log, sites - {id}, model, field);
      SumMinus(log, SitesWeightOf(sites, model, field),
               SitesWeightOf(sites - {id}, model, field),
               WeightOf(Site(id), model, field));
      assert Count(log, Site(id), model, field) == Sum(log, WeightOf(Site(id), model, field));
      assert SitesTotal(log, sites - {id}, model, field) == Sum(log, SitesWeightOf(sites - {id}, model, field));
      assert SitesTotal(log, sites, model, field) ==
        Count(log, Site(id), model, field) + SitesTotal(log, sites - {id}, model, field);
    }
  }

  lemma {:induction false} SumZero(log: seq<Op>, w: Op -> int)
    requires forall op :: w(op) == 0
    ensures Sum(log, w) == 0
  {
    if log != [] { SumZero(log[..|log| - 1], w); }
  }

  /** At every moment of every interleaving, any sites' calls, and confirmed, add up to at most the global counter. */
  lemma SitesWithinGlobal(programs: seq<seq<Item>>, schedule: seq<nat>, sites: set<string>, model: Model, field: Field)
    requires IsSchedule(programs, schedule) && field != Ms
    ensures
      var log := Log(programs, schedule);
      SitesTotal(log, sites, model, field) <= Count(log, Global, model, field)
  {
    hide Log, Sum, Weight, NeverNegative, SitesTotal, SitesWeight;
    var log := Log(programs, schedule);
    GlobalComesFirst(sites, model, field);
    LogNeverNegative(programs, schedule, GlobalMinusSites(sites, model, field));
    SitesTotalIs(log, sites, model, field);
    SumMinus(log, WeightOf(Global, model, field),
             SitesWeightOf(sites, model, field), GlobalMinusSites(sites, model, field));
  }

  // ---- When nothing is in flight ----

  ghost predicate AllAttributed(programs: seq<seq<Item>>, sites: set<string>) {
    forall i, j | 0 <= i < |programs| && 0 <= j < |programs[i]| && programs[i][j].Infer? :: programs[i][j].site in sites
  }

  lemma {:induction false} ProgramTotal(items: seq<Item>, sites: set<string>, model: Model, field: Field)
    requires "" !in sites && forall j | 0 <= j < |items| && items[j].Infer? :: items[j].site in sites
    ensures Sum(Program(items), GlobalMinusSites(sites, model, field)) == 0
  {
    hide Sum, Ops, Block, Weight;
    var w := GlobalMinusSites(sites, model, field);
    if items == [] {
      Empty(w);
    } else {
      var n := |items| - 1;
      ProgramTotal(items[..n], sites, model, field);
      SumAppend(Program(items[..n]), Ops(items[n]), w);
      ItemTotal(items[n], sites, model, field);
    }
  }

  lemma ItemTotal(item: Item, sites: set<string>, model: Model, field: Field)
    requires "" !in sites && (item.Infer? ==> item.site in sites)
    ensures Sum(Ops(item), GlobalMinusSites(sites, model, field)) == 0
  {
    hide Sum, Block;
    var w, ops := GlobalMinusSites(sites, model, field), Ops(item);
    assert ops[..|ops|] == ops;
    if item.Touch? {
      TouchPrefix(item, |ops|, w);
    } else {
      BlockSizes(item);
      OpsPrefix(item, |ops|, w);
      BlockPrefix(Global, item.model, item.ms, item.confirmed, |ops| / 2, w);
      BlockPrefix(Site(item.site), item.model, item.ms, item.confirmed, |ops| / 2, w);
    }
  }

  lemma {:induction false} PartsTotal(programs: seq<seq<Item>>, schedule: seq<nat>, m: nat, sites: set<string>,
                                      model: Model, field: Field)
    requires IsSchedule(programs, schedule) && m <= |programs|
    requires "" !in sites && AllAttributed(programs, sites)
    requires forall i | 0 <= i < |programs| :: Done(schedule, i) == |Program(programs[i])|
    ensures Parts(programs, schedule, m, GlobalMinusSites(sites, model, field)) == 0
    decreases m
  {
    hide Sum, Program, Done, GlobalMinusSites;
    if m > 0 {
      PartsTotal(programs, schedule, m - 1, sites, model, field);
      ProgramTotal(programs[m - 1], sites, model, field);
      assert Part(programs, schedule, m - 1) == Program(programs[m - 1]);
    }
  }

  /** Once every inference is counted and each has a site, the sites account for the whole global counter. */
  lemma SitesExplainGlobal(programs: seq<seq<Item>>, schedule: seq<nat>, sites: set<string>, model: Model, field: Field)
    requires IsSchedule(programs, schedule)
    requires "" !in sites && AllAttributed(programs, sites)
    requires forall i | 0 <= i < |programs| :: Done(schedule, i) == |Program(programs[i])|
    ensures
      var log := Log(programs, schedule);
      SitesTotal(log, sites, model, field) == Count(log, Global, model, field)
  {
    hide Log, Sum, Weight, Program, Done, SitesTotal, SitesWeight, Parts, AllAttributed;
    var log, w := Log(programs, schedule), GlobalMinusSites(sites, model, field);
    LogIsParts(programs, schedule, w);
    PartsTotal(programs, schedule, |programs|, sites, model, field);
    SitesTotalIs(log, sites, model, field);
    SumMinus(log, WeightOf(Global, model, field),
             SitesWeightOf(sites, model, field), w);
  }
}
