/**
 The transcode single-flight protocol: any number of callers ask for a browser-playable
 copy of a segment, race on a mutex-guarded `inflight` table, and share one disk cache.

 Each step below is one action that other callers can observe as a whole: a stat, a
 critical section of the mutex, a wake-up, or one file-system action of the transcode.
 */
module TranscodeProtocol {

  type Path = string
  type Channel = nat
  type Caller = nat

  /** What a path holds. `Unusable` is an empty file or a directory; `Torn` is a non-empty partial file. */
  datatype Slot = Absent | Unusable | Torn | Complete

  /** The size check of the cache probe: it cannot tell a torn file from a complete one. */
  predicate StatHit(f: Slot) {
    f.Torn? || f.Complete?
  }

  datatype Probe = ProbeFailed | Playable | NotPlayable

  datatype Request = Request(isSegment: bool, isMp4: bool, probe: Probe, cachePath: Path)

  /** The requests that are answered with the source path at once. */
  predicate Bypasses(r: Request) {
    !r.isSegment || !r.isMp4 || !r.probe.NotPlayable?
  }

  datatype Answer =
    | ServeSource
    | ServeCache
    | WaitedInVain(ch: Channel)   // "prior in-flight transcode failed"
    | TranscodeFailed

  /** Where a caller stands. The owner states carry the channel it registered. */
  datatype Pc =
    | Entry
    | Missed
    | Waiting(ch: Channel)
    | Woken(ch: Channel)
    | MakingDir(ch: Channel)
    | WipingTmp(ch: Channel)
    | Launching(ch: Channel)
    | Encoding(ch: Channel)
    | Renaming(ch: Channel)
    | CleaningTmp(ch: Channel)
    | Leaving(ch: Channel, ok: bool)
    | Returned(answer: Answer)

  /** Between registering a channel in `inflight` and removing it. */
  predicate Owns(pc: Pc): (r: bool)
    ensures r ==> !pc.Entry? && !pc.Missed? && !pc.Returned?
  {
    pc.MakingDir? || pc.WipingTmp? || pc.Launching? || pc.Encoding? || pc.Renaming? ||
    pc.CleaningTmp? || pc.Leaving?
  }

  /** The shared state: the registry, and the disk. `outcome` records how each closed channel's transcode ended. */
  datatype Shared = Shared(
    inflight: map<Path, Channel>,
    closed: set<Channel>,
    outcome: map<Channel, bool>,
    next: Channel,
    cache: map<Path, Slot>,
    tmp: map<Path, Slot>)

  function At(m: map<Path, Slot>, p: Path): Slot {
    if p in m then m[p] else Absent
  }

  /** The first critical section: wait on the registered channel, or register a fresh one. */
  function Claim(sh: Shared, p: Path): (Shared, Pc) {
    if p in sh.inflight then (sh, Waiting(sh.inflight[p]))
    else (sh.(inflight := sh.inflight[p := sh.next], next := sh.next + 1), MakingDir(sh.next))
  }

  /** The deferred critical section: remove the entry and close the channel. */
  function Release(sh: Shared, p: Path, ch: Channel, ok: bool): Shared {
    sh.(inflight := sh.inflight - {p}, closed := sh.closed + {ch}, outcome := sh.outcome[ch := ok])
  }

  /** What the world decides for a step: whether the action works, and what a failed encoder leaves. */
  datatype Luck = Luck(ok: bool, left: Slot)

  predicate Enabled(sh: Shared, pc: Pc) {
    match pc
    case Waiting(ch) => ch in sh.closed
    case Returned(_) => false
    case _ => true
  }

  /** One step of a caller. */
  function Act(r: Request, sh: Shared, pc: Pc, luck: Luck): (Shared, Pc)
    requires Enabled(sh, pc)
  {
    var p := r.cachePath;
    match pc
    case Entry =>
      (sh, if Bypasses(r) then Returned(ServeSource)
           else if StatHit(At(sh.cache, p)) then Returned(ServeCache) else Missed)
    case Missed => Claim(sh, p)
    case Waiting(ch) => (sh, Woken(ch))
    case Woken(ch) =>
      (sh, Returned(if StatHit(At(sh.cache, p)) then ServeCache else WaitedInVain(ch)))
    case MakingDir(ch) => (sh, if luck.ok then WipingTmp(ch) else Leaving(ch, false))
    case WipingTmp(ch) => (if luck.ok then sh.(tmp := sh.tmp[p := Absent]) else sh, Launching(ch))
    case Launching(ch) => (sh.(tmp := sh.tmp[p := Torn]), Encoding(ch))
    case Encoding(ch) =>
      if luck.ok then (sh.(tmp := sh.tmp[p := Complete]), Renaming(ch))
      else (sh.(tmp := sh.tmp[p := luck.left]), CleaningTmp(ch))
    case Renaming(ch) =>
      if luck.ok then (sh.(cache := sh.cache[p := At(sh.tmp, p)], tmp := sh.tmp[p := Absent]), Leaving(ch, true))
      else (sh, CleaningTmp(ch))
    case CleaningTmp(ch) => (if luck.ok then sh.(tmp := sh.tmp[p := Absent]) else sh, Leaving(ch, false))
    case Leaving(ch, ok) =>
      (Release(sh, p, ch, ok), Returned(if ok then ServeCache else TranscodeFailed))
    case Returned(_) => (sh, pc)
  }

  datatype State = State(sh: Shared, pcs: seq<Pc>)

  predicate Fits(reqs: seq<Request>, s: State) {
    |s.pcs| == |reqs|
  }

  /** Caller `c` takes the next step of the system. */
  ghost predicate StepOf(reqs: seq<Request>, s: State, t: State, c: Caller, luck: Luck) {
    && Fits(reqs, s) && c < |reqs| && Enabled(s.sh, s.pcs[c])
    && var (sh, pc) := Act(reqs[c], s.sh, s.pcs[c], luck);
       t == State(sh, s.pcs[c := pc])
  }

  /** A fresh process on any disk whose cache holds no torn file. */
  ghost predicate Init(reqs: seq<Request>, s: State) {
    && Fits(reqs, s)
    && (forall c | 0 <= c < |reqs| :: s.pcs[c] == Entry)
    && s.sh.inflight == map[] && s.sh.closed == {} && s.sh.outcome == map[]
    && (forall p | p in s.sh.cache :: s.sh.cache[p] != Torn)
  }

  datatype Move = Move(caller: Caller, luck: Luck)

  /** An interleaving: `moves[i]` leads from `run[i]` to `run[i + 1]`. */
  ghost predicate IsRun(reqs: seq<Request>, run: seq<State>, moves: seq<Move>) {
    && |run| == |moves| + 1
    && Init(reqs, run[0])
    && forall i | 0 <= i < |moves| :: StepOf(reqs, run[i], run[i + 1], moves[i].caller, moves[i].luck)
  }

  // ---- The invariant ----

  /** Every owner holds the table entry of its path, under a channel that is still open. */
  ghost predicate OwnersRegistered(reqs: seq<Request>, s: State)
    requires Fits(reqs, s)
  {
    forall c | 0 <= c < |reqs| && Owns(s.pcs[c]) ::
      && reqs[c].cachePath in s.sh.inflight
      && s.sh.inflight[reqs[c].cachePath] == s.pcs[c].ch
      && s.pcs[c].ch !in s.sh.closed
  }

  /** A channel has one owner, so (through the table) a path has one owner. */
  ghost predicate OwnersDistinct(reqs: seq<Request>, s: State)
    requires Fits(reqs, s)
  {
    forall c, d | 0 <= c < |reqs| && 0 <= d < |reqs| && Owns(s.pcs[c]) && Owns(s.pcs[d]) &&
                  s.pcs[c].ch == s.pcs[d].ch :: c == d
  }

  ghost predicate HasOwner(reqs: seq<Request>, s: State, p: Path, ch: Channel)
    requires Fits(reqs, s)
  {
    exists c :: 0 <= c < |reqs| && Owns(s.pcs[c]) && s.pcs[c].ch == ch && reqs[c].cachePath == p
  }

  /** Every table entry has a live owner. */
  ghost predicate EntriesOwned(reqs: seq<Request>, s: State)
    requires Fits(reqs, s)
  {
    forall p | p in s.sh.inflight :: HasOwner(reqs, s, p, s.sh.inflight[p])
  }

  /** Channels are handed out once. */
  ghost predicate ChannelsFresh(s: State) {
    && (forall p | p in s.sh.inflight :: s.sh.inflight[p] < s.sh.next)
    && (forall ch | ch in s.sh.closed :: ch < s.sh.next)
    && s.sh.outcome.Keys == s.sh.closed
  }

  /** Only complete transcodes are ever seen at a cache path, and an owner about to rename holds one. */
  ghost predicate CacheClean(reqs: seq<Request>, s: State)
    requires Fits(reqs, s)
  {
    && (forall p | p in s.sh.cache :: s.sh.cache[p] != Torn)
    && (forall c | 0 <= c < |reqs| && s.pcs[c].Renaming? :: At(s.sh.tmp, reqs[c].cachePath) == Complete)
  }

  /** What a caller that waits, or has an answer, may rely on. */
  ghost predicate CallerServed(r: Request, sh: Shared, pc: Pc) {
    match pc
    case Waiting(ch) =>
      (ch in sh.closed && ch in sh.outcome && (sh.outcome[ch] ==> At(sh.cache, r.cachePath) == Complete))
      || (r.cachePath in sh.inflight && sh.inflight[r.cachePath] == ch)
    case Woken(ch) => ch in sh.closed && ch in sh.outcome && (sh.outcome[ch] ==> At(sh.cache, r.cachePath) == Complete)
    case Leaving(ch, ok) => ok ==> At(sh.cache, r.cachePath) == Complete
    case Returned(ServeCache) => At(sh.cache, r.cachePath) == Complete
    case Returned(WaitedInVain(ch)) => ch in sh.closed && ch in sh.outcome && !sh.outcome[ch]
    case _ => true
  }

  ghost predicate Served(reqs: seq<Request>, s: State)
    requires Fits(reqs, s)
  {
    forall c | 0 <= c < |reqs| :: CallerServed(reqs[c], s.sh, s.pcs[c])
  }

  ghost predicate Inv(reqs: seq<Request>, s: State) {
    && Fits(reqs, s)
    && OwnersRegistered(reqs, s) && OwnersDistinct(reqs, s) && EntriesOwned(reqs, s)
    && ChannelsFresh(s) && CacheClean(reqs, s) && Served(reqs, s)
  }

  lemma OnePathOneOwner(reqs: seq<Request>, s: State, c: Caller, d: Caller)
    requires Inv(reqs, s) && c < |reqs| && d < |reqs|
    requires Owns(s.pcs[c]) && Owns(s.pcs[d]) && reqs[c].cachePath == reqs[d].cachePath
    ensures c == d
  {
  }

  /** The part of the state that the mutex guards. */
  function Table(s: State): (map<Path, Channel>, set<Channel>, map<Channel, bool>, Channel) {
    (s.sh.inflight, s.sh.closed, s.sh.outcome, s.sh.next)
  }

  /** What a step does to ownership and to the table: the mover goes on owning, leaves, claims, or has no part in it. */
  lemma StepOwns(reqs: seq<Request>, s: State, t: State, c: Caller, luck: Luck)
    requires StepOf(reqs, s, t, c, luck)
    ensures Fits(reqs, s) && Fits(reqs, t) && c < |reqs|
    ensures forall d | 0 <= d < |reqs| && d != c :: t.pcs[d] == s.pcs[d]
    ensures
      var (p, was, now) := (reqs[c].cachePath, s.pcs[c], t.pcs[c]);
      if Owns(was) && !Owns(now) then was.Leaving? && Table(t) == Table(s.(sh := Release(s.sh, p, was.ch, was.ok)))
      else if Owns(now) && !Owns(was) then
        now.ch == s.sh.next && p !in s.sh.inflight && Table(t) == Table(s.(sh := Claim(s.sh, p).0))
      else Table(t) == Table(s) && (Owns(now) ==> now.ch == was.ch)
  {
  }

  /** What a step does to the disk: an owner works on its own path's files, and only a rename fills the cache. */
  lemma StepDisk(reqs: seq<Request>, s: State, t: State, c: Caller, luck: Luck)
    requires StepOf(reqs, s, t, c, luck)
    ensures Fits(reqs, s) && Fits(reqs, t) && c < |reqs|
    ensures
      var (p, was) := (reqs[c].cachePath, s.pcs[c]);
      && (t.sh.tmp == s.sh.tmp || (Owns(was) && t.sh.tmp == s.sh.tmp[p := At(t.sh.tmp, p)]))
      && (t.sh.cache == s.sh.cache || (was.Renaming? && t.sh.cache == s.sh.cache[p := At(s.sh.tmp, p)]))
      && (t.pcs[c].Renaming? ==> At(t.sh.tmp, p) == Complete)
  {
  }

  lemma StepKeepsRegistered(reqs: seq<Request>, s: State, t: State, c: Caller, luck: Luck)
    requires Inv(reqs, s) && StepOf(reqs, s, t, c, luck)
    ensures Fits(reqs, t) && OwnersRegistered(reqs, t)
  {
    hide StepOf, Owns, Served, CacheClean;
    StepOwns(reqs, s, t, c, luck);
    forall d | 0 <= d < |reqs| && Owns(t.pcs[d])
      ensures reqs[d].cachePath in t.sh.inflight
      ensures t.sh.inflight[reqs[d].cachePath] == t.pcs[d].ch
      ensures t.pcs[d].ch !in t.sh.closed
    {
      if d != c && s.pcs[c].Leaving? && Owns(s.pcs[c]) {
        assert s.pcs[d].ch != s.pcs[c].ch;
      }
    }
  }

  lemma StepKeepsDistinct(reqs: seq<Request>, s: State, t: State, c: Caller, luck: Luck)
    requires Inv(reqs, s) && StepOf(reqs, s, t, c, luck)
    ensures Fits(reqs, t) && OwnersDistinct(reqs, t)
  {
    hide StepOf, Owns, Served, CacheClean, EntriesOwned;
    StepOwns(reqs, s, t, c, luck);
  }

  lemma StepKeepsFresh(reqs: seq<Request>, s: State, t: State, c: Caller, luck: Luck)
    requires Inv(reqs, s) && StepOf(reqs, s, t, c, luck)
    ensures ChannelsFresh(t)
  {
    hide OwnersDistinct, EntriesOwned, Served, CacheClean;
  }

  lemma StepKeepsEntries(reqs: seq<Request>, s: State, t: State, c: Caller, luck: Luck)
    requires Inv(reqs, s) && StepOf(reqs, s, t, c, luck)
    ensures Fits(reqs, t) && EntriesOwned(reqs, t)
  {
    hide StepOf, Owns, Served, CacheClean, ChannelsFresh;
    StepOwns(reqs, s, t, c, luck);
    forall p | p in t.sh.inflight
      ensures HasOwner(reqs, t, p, t.sh.inflight[p])
    {
      if p in s.sh.inflight && s.sh.inflight[p] == t.sh.inflight[p] {
        var o :| 0 <= o < |reqs| && Owns(s.pcs[o]) && s.pcs[o].ch == s.sh.inflight[p] && reqs[o].cachePath == p;
        assert Owns(t.pcs[o]) && t.pcs[o].ch == t.sh.inflight[p];
      } else {
        assert Owns(t.pcs[c]) && t.pcs[c].ch == t.sh.inflight[p] && reqs[c].cachePath == p;
      }
    }
  }

  lemma StepKeepsCache(reqs: seq<Request>, s: State, t: State, c: Caller, luck: Luck)
    requires Inv(reqs, s) && StepOf(reqs, s, t, c, luck)
    ensures Fits(reqs, t) && CacheClean(reqs, t)
    ensures forall p :: At(s.sh.cache, p) == Complete ==> At(t.sh.cache, p) == Complete
  {
    StepDisk(reqs, s, t, c, luck);
    StepOwns(reqs, s, t, c, luck);
    hide StepOf, Served, EntriesOwned, ChannelsFresh;
    forall d | 0 <= d < |reqs| && t.pcs[d].Renaming?
      ensures At(t.sh.tmp, reqs[d].cachePath) == Complete
    {
      if d != c && Owns(s.pcs[c]) && reqs[d].cachePath == reqs[c].cachePath {
        OnePathOneOwner(reqs, s, c, d);
      }
    }
  }

  /** A registered channel is open: its owner has not closed it yet. */
  lemma OpenEntries(reqs: seq<Request>, s: State, p: Path)
    requires Inv(reqs, s)
    ensures p in s.sh.inflight ==> s.sh.inflight[p] !in s.sh.closed
  {
    hide Owns, OwnersDistinct, Served, CacheClean, ChannelsFresh;
    if p in s.sh.inflight { assert HasOwner(reqs, s, p, s.sh.inflight[p]); }
  }

  lemma MoverIsServed(reqs: seq<Request>, s: State, t: State, c: Caller, luck: Luck)
    requires Inv(reqs, s) && StepOf(reqs, s, t, c, luck)
    ensures CallerServed(reqs[c], t.sh, t.pcs[c])
  {
    hide OwnersDistinct;
    assert CallerServed(reqs[c], s.sh, s.pcs[c]);
    if s.pcs[c].Waiting? { OpenEntries(reqs, s, reqs[c].cachePath); }
    hide OwnersRegistered, EntriesOwned;
  }

  lemma OtherIsServed(reqs: seq<Request>, s: State, t: State, c: Caller, luck: Luck, d: Caller)
    requires Inv(reqs, s) && StepOf(reqs, s, t, c, luck) && d < |reqs| && d != c
    ensures Fits(reqs, t) && CallerServed(reqs[d], t.sh, t.pcs[d])
  {
    StepKeepsCache(reqs, s, t, c, luck);
    StepOwns(reqs, s, t, c, luck);
    hide StepOf, Owns, CacheClean;
    assert CallerServed(reqs[d], s.sh, s.pcs[d]);
    if s.pcs[d].Waiting? && s.pcs[d].ch !in s.sh.closed {
      assert HasOwner(reqs, s, reqs[d].cachePath, s.pcs[d].ch);
    }
  }

  lemma StepKeepsServed(reqs: seq<Request>, s: State, t: State, c: Caller, luck: Luck)
    requires Inv(reqs, s) && StepOf(reqs, s, t, c, luck)
    ensures Fits(reqs, t) && Served(reqs, t)
  {
    hide Inv, CallerServed;
    forall d | 0 <= d < |reqs|
      ensures CallerServed(reqs[d], t.sh, t.pcs[d])
    {
      if d == c {
        MoverIsServed(reqs, s, t, c, luck);
      } else {
        OtherIsServed(reqs, s, t, c, luck, d);
      }
    }
  }

  lemma StepKeepsInv(reqs: seq<Request>, s: State, t: State, c: Caller, luck: Luck)
    requires Inv(reqs, s) && StepOf(reqs, s, t, c, luck)
    ensures Inv(reqs, t)
  {
    StepKeepsRegistered(reqs, s, t, c, luck);
    StepKeepsDistinct(reqs, s, t, c, luck);
    StepKeepsFresh(reqs, s, t, c, luck);
    StepKeepsEntries(reqs, s, t, c, luck);
    StepKeepsCache(reqs, s, t, c, luck);
    StepKeepsServed(reqs, s, t, c, luck);
  }

  /** Every state of every interleaving satisfies the invariant. */
  lemma {:induction false} RunKeepsInv(reqs: seq<Request>, run: seq<State>, moves: seq<Move>, i: nat)
    requires IsRun(reqs, run, moves) && i < |run|
    ensures Inv(reqs, run[i])
  {
    if i > 0 {
      RunKeepsInv(reqs, run, moves, i - 1);
      StepKeepsInv(reqs, run[i - 1], run[i], moves[i - 1].caller, moves[i - 1].luck);
    }
  }

  // ---- Safety ----

  /** Only the owner of a path changes its temporary file or its cache file, and the cache only to a complete one. */
  lemma OnlyTheOwnerTouchesDisk(reqs: seq<Request>, s: State, t: State, c: Caller, luck: Luck, p: Path)
    requires Inv(reqs, s) && StepOf(reqs, s, t, c, luck)
    requires At(s.sh.tmp, p) != At(t.sh.tmp, p) || At(s.sh.cache, p) != At(t.sh.cache, p)
    ensures Owns(s.pcs[c]) && reqs[c].cachePath == p && p in s.sh.inflight && s.sh.inflight[p] == s.pcs[c].ch
    ensures forall d | 0 <= d < |reqs| && d != c && reqs[d].cachePath == p :: !Owns(s.pcs[d])
    ensures At(s.sh.cache, p) != At(t.sh.cache, p) ==> s.pcs[c].Renaming? && At(t.sh.cache, p) == Complete
  {
    hide StepOf, Served, EntriesOwned, ChannelsFresh;
    StepDisk(reqs, s, t, c, luck);
    forall d | 0 <= d < |reqs| && d != c && reqs[d].cachePath == p
      ensures !Owns(s.pcs[d])
    {
    }
  }

  /** In every interleaving two callers are never between claiming and deleting the entry of one cache path. */
  lemma OneOwnerAtATime(reqs: seq<Request>, run: seq<State>, moves: seq<Move>, i: nat, c: Caller, d: Caller)
    requires IsRun(reqs, run, moves) && i < |run| && c < |reqs| && d < |reqs|
    requires |run[i].pcs| == |reqs| && Owns(run[i].pcs[c]) && Owns(run[i].pcs[d])
    requires reqs[c].cachePath == reqs[d].cachePath
    ensures c == d
  {
    RunKeepsInv(reqs, run, moves, i);
    OnePathOneOwner(reqs, run[i], c, d);
  }

  /** A caller told to serve the cache path finds a complete transcode there, then and ever after. */
  lemma {:induction false} ServedFileIsComplete(reqs: seq<Request>, run: seq<State>, moves: seq<Move>, i: nat, j: nat,
                                                c: Caller)
    requires IsRun(reqs, run, moves) && i <= j < |run| && c < |reqs|
    requires |run[i].pcs| == |reqs| && run[i].pcs[c] == Returned(ServeCache)
    ensures At(run[j].sh.cache, reqs[c].cachePath) == Complete
  {
    if i == j {
      RunKeepsInv(reqs, run, moves, i);
      assert CallerServed(reqs[c], run[i].sh, run[i].pcs[c]);
    } else {
      ServedFileIsComplete(reqs, run, moves, i, j - 1, c);
      RunKeepsInv(reqs, run, moves, j - 1);
      StepKeepsCache(reqs, run[j - 1], run[j], moves[j - 1].caller, moves[j - 1].luck);
    }
  }

  /** Somebody left channel `ch` with result `ok` before state `i`. */
  ghost predicate LeftBefore(reqs: seq<Request>, run: seq<State>, moves: seq<Move>, i: nat, ch: Channel, ok: bool)
    requires |run| == |moves| + 1
  {
    exists j :: 0 <= j < i <= |moves| && moves[j].caller < |run[j].pcs| &&
                run[j].pcs[moves[j].caller] == Leaving(ch, ok)
  }

  /** An owner's channel is not closed yet. */
  lemma OwnerIsOpen(reqs: seq<Request>, s: State, c: Caller, ch: Channel)
    requires Inv(reqs, s) && c < |reqs|
    ensures Owns(s.pcs[c]) && s.pcs[c].ch == ch ==> ch !in s.sh.closed
  {
  }

  lemma {:induction false} ClosedByItsOwner(reqs: seq<Request>, run: seq<State>, moves: seq<Move>, i: nat, ch: Channel)
    requires IsRun(reqs, run, moves) && i < |run|
    requires ch in run[i].sh.closed && ch in run[i].sh.outcome
    ensures LeftBefore(reqs, run, moves, i, ch, run[i].sh.outcome[ch])
  {
    hide StepOf, Owns, OwnersRegistered, OwnersDistinct, EntriesOwned, CacheClean, Served;
    if i > 0 {
      RunKeepsInv(reqs, run, moves, i - 1);
      var m := moves[i - 1];
      StepOwns(reqs, run[i - 1], run[i], m.caller, m.luck);
      OwnerIsOpen(reqs, run[i - 1], m.caller, ch);
      if ch in run[i - 1].sh.closed {
        ClosedByItsOwner(reqs, run, moves, i - 1, ch);
      } else {
        assert run[i - 1].pcs[m.caller] == Leaving(ch, run[i].sh.outcome[ch]);
      }
    }
  }

  /** A waiter reports failure only if the transcode it waited on failed: its owner left the channel without a file. */
  lemma WaiterFailsWithItsOwner(reqs: seq<Request>, run: seq<State>, moves: seq<Move>, i: nat, c: Caller, ch: Channel)
    requires IsRun(reqs, run, moves) && i < |run| && c < |reqs|
    requires |run[i].pcs| == |reqs| && run[i].pcs[c] == Returned(WaitedInVain(ch))
    ensures LeftBefore(reqs, run, moves, i, ch, false)
  {
    RunKeepsInv(reqs, run, moves, i);
    assert CallerServed(reqs[c], run[i].sh, run[i].pcs[c]);
    ClosedByItsOwner(reqs, run, moves, i, ch);
  }

  // ---- Who is served the source ----

  lemma {:induction false} SourceOrCache(reqs: seq<Request>, run: seq<State>, moves: seq<Move>, i: nat, c: Caller)
    requires IsRun(reqs, run, moves) && i < |run| && c < |reqs|
    ensures |run[i].pcs| == |reqs|
    ensures
      var (r, pc) := (reqs[c], run[i].pcs[c]);
      var unplayable := r.isSegment && r.isMp4 && r.probe == NotPlayable;
      && (pc == Returned(ServeSource) ==> !unplayable)
      && (pc != Entry && pc != Returned(ServeSource) ==> unplayable)
  {
    if i > 0 {
      SourceOrCache(reqs, run, moves, i - 1, c);
      var m := moves[i - 1];
      assert StepOf(reqs, run[i - 1], run[i], m.caller, m.luck);
    }
  }

  /**
   In every run an answered caller is told to serve the source exactly when its file is not an mp4 segment
   with a codec known to be unplayable: a failed probe serves the source as a playable codec does.
   */
  lemma SourceServedIff(reqs: seq<Request>, run: seq<State>, moves: seq<Move>, i: nat, c: Caller)
    requires IsRun(reqs, run, moves) && i < |run| && c < |reqs|
    requires |run[i].pcs| == |reqs| && run[i].pcs[c].Returned?
    ensures run[i].pcs[c].answer == ServeSource <==>
      !(reqs[c].isSegment && reqs[c].isMp4 && reqs[c].probe == NotPlayable)
  {
    SourceOrCache(reqs, run, moves, i, c);
  }

  // ---- Progress ----

  /** How many steps a caller still takes at most. */
  function Rank(pc: Pc): nat {
    match pc
    case Entry => 9
    case Missed => 8
    case MakingDir(_) => 7
    case WipingTmp(_) => 6
    case Launching(_) => 5
    case Encoding(_) => 4
    case Renaming(_) => 3
    case CleaningTmp(_) => 2
    case Waiting(_) => 2
    case Woken(_) => 1
    case Leaving(_, _) => 1
    case Returned(_) => 0
  }

  function TotalRank(pcs: seq<Pc>): nat {
    if pcs == [] then 0 else Rank(pcs[0]) + TotalRank(pcs[1..])
  }

  lemma {:induction false} TotalRankUpdate(pcs: seq<Pc>, c: nat, pc: Pc)
    requires c < |pcs|
    ensures TotalRank(pcs[c := pc]) == TotalRank(pcs) - Rank(pcs[c]) + Rank(pc)
  {
    var u := pcs[c := pc];
    if c == 0 {
      assert u[1..] == pcs[1..];
    } else {
      assert u[1..] == pcs[1..][c - 1 := pc];
      TotalRankUpdate(pcs[1..], c - 1, pc);
    }
  }

  lemma {:induction false} TotalRankBound(pcs: seq<Pc>)
    ensures TotalRank(pcs) <= 9 * |pcs|
  {
    if pcs != [] { TotalRankBound(pcs[1..]); }
  }

  /** Every waiter is woken already, or has a live owner for its path that can itself take a step. */
  lemma WaiterHasLiveOwner(reqs: seq<Request>, s: State, c: Caller) returns (o: Caller)
    requires Inv(reqs, s) && c < |reqs| && s.pcs[c].Waiting? && s.pcs[c].ch !in s.sh.closed
    ensures o < |reqs| && Owns(s.pcs[o]) && s.pcs[o].ch == s.pcs[c].ch && reqs[o].cachePath == reqs[c].cachePath
    ensures Enabled(s.sh, s.pcs[o])
  {
    assert CallerServed(reqs[c], s.sh, s.pcs[c]);
    assert HasOwner(reqs, s, reqs[c].cachePath, s.pcs[c].ch);
    o :| 0 <= o < |reqs| && Owns(s.pcs[o]) && s.pcs[o].ch == s.pcs[c].ch && reqs[o].cachePath == reqs[c].cachePath;
  }

  /** In every interleaving, whatever fails: while somebody has no answer, somebody can take a step. */
  lemma NoDeadlock(reqs: seq<Request>, run: seq<State>, moves: seq<Move>, i: nat, c: Caller)
    requires IsRun(reqs, run, moves) && i < |run| && c < |reqs|
    requires |run[i].pcs| == |reqs| && !run[i].pcs[c].Returned?
    ensures exists o :: 0 <= o < |reqs| && Enabled(run[i].sh, run[i].pcs[o])
  {
    RunKeepsInv(reqs, run, moves, i);
    if !Enabled(run[i].sh, run[i].pcs[c]) {
      var o := WaiterHasLiveOwner(reqs, run[i], c);
    }
  }

  lemma {:induction false} StepsSpendRank(reqs: seq<Request>, run: seq<State>, moves: seq<Move>, i: nat)
    requires IsRun(reqs, run, moves) && i < |run|
    ensures i + TotalRank(run[i].pcs) <= TotalRank(run[0].pcs)
  {
    if i > 0 {
      StepsSpendRank(reqs, run, moves, i - 1);
      var m := moves[i - 1];
      assert StepOf(reqs, run[i - 1], run[i], m.caller, m.luck);
      TotalRankUpdate(run[i - 1].pcs, m.caller, run[i].pcs[m.caller]);
    }
  }

  /**
   No caller waits for ever, under any scheduling: an interleaving of n callers has at most
   9n steps, and one that cannot be extended has answered every caller.
   */
  lemma EveryCallerIsAnswered(reqs: seq<Request>, run: seq<State>, moves: seq<Move>)
    requires IsRun(reqs, run, moves)
    ensures |moves| <= 9 * |reqs|
    ensures
      var last := run[|moves|];
      |last.pcs| == |reqs| &&
      ((forall o | 0 <= o < |reqs| :: !Enabled(last.sh, last.pcs[o])) ==>
        forall c | 0 <= c < |reqs| :: last.pcs[c].Returned?)
  {
    var n := |moves|;
    RunKeepsInv(reqs, run, moves, n);
    StepsSpendRank(reqs, run, moves, n);
    TotalRankBound(run[0].pcs);
    if forall o | 0 <= o < |reqs| :: !Enabled(run[n].sh, run[n].pcs[o]) {
      forall c | 0 <= c < |reqs|
        ensures run[n].pcs[c].Returned?
      {
        if !run[n].pcs[c].Returned? { NoDeadlock(reqs, run, moves, n, c); }
      }
    }
  }

  // ---- What single flight does not promise ----

  /** One lucky step of caller `c` added to a run. */
  lemma Extend(reqs: seq<Request>, run: seq<State>, moves: seq<Move>, c: Caller)
    returns (run': seq<State>, moves': seq<Move>, last: State)
    requires IsRun(reqs, run, moves) && Fits(reqs, run[|moves|]) && c < |reqs|
    requires Enabled(run[|moves|].sh, run[|moves|].pcs[c])
    ensures IsRun(reqs, run', moves') && last == run'[|moves'|]
    ensures |run'| == |moves'| + 1 && run <= run' && moves <= moves'
    ensures
      var s := run[|moves|];
      var (sh, pc) := Act(reqs[c], s.sh, s.pcs[c], Luck(true, Absent));
      last == State(sh, s.pcs[c := pc])
  {
    var s := run[|moves|];
    var (sh, pc) := Act(reqs[c], s.sh, s.pcs[c], Luck(true, Absent));
    last := State(sh, s.pcs[c := pc]);
    run', moves' := run + [last], moves + [Move(c, Luck(true, Absent))];
    forall i | 0 <= i < |moves'|
      ensures StepOf(reqs, run'[i], run'[i + 1], moves'[i].caller, moves'[i].luck)
    {
      if i < |moves| { assert StepOf(reqs, run[i], run[i + 1], moves[i].caller, moves[i].luck); }
    }
  }

  /** A lone caller's way from a registered channel to the encoder. */
  lemma DriveToEncoder(reqs: seq<Request>, run: seq<State>, moves: seq<Move>, c: Caller, ch: Channel)
    returns (run': seq<State>, moves': seq<Move>, last: State)
    requires IsRun(reqs, run, moves) && Fits(reqs, run[|moves|]) && c < |reqs|
    requires run[|moves|].pcs[c] == MakingDir(ch)
    ensures IsRun(reqs, run', moves') && last == run'[|moves'|]
    ensures last.pcs == run[|moves|].pcs[c := Encoding(ch)]
    ensures last.sh.cache == run[|moves|].sh.cache && last.sh.inflight == run[|moves|].sh.inflight
  {
    run', moves', last := Extend(reqs, run, moves, c);
    run', moves', last := Extend(reqs, run', moves', c);
    run', moves', last := Extend(reqs, run', moves', c);
  }

  /** Two callers miss, and the first of them transcodes; the second stands still all the while. */
  lemma FirstTranscode(reqs: seq<Request>, s: State) returns (run: seq<State>, moves: seq<Move>, last: State)
    requires |reqs| == 2 && reqs[0] == reqs[1] && !Bypasses(reqs[0])
    requires s == State(Shared(map[], {}, map[], 0, map[], map[]), [Entry, Entry])
    ensures IsRun(reqs, run, moves) && last == run[|moves|]
    ensures last.pcs == [Leaving(0, true), Missed] && At(last.sh.cache, reqs[0].cachePath) == Complete
    ensures last.sh.inflight == map[reqs[0].cachePath := 0]
  {
    run, moves := [s], [];
    assert IsRun(reqs, run, moves);
    hide IsRun;
    run, moves, last := Extend(reqs, run, moves, 0);
    run, moves, last := Extend(reqs, run, moves, 1);
    run, moves, last := Extend(reqs, run, moves, 0);
    assert last.pcs == [MakingDir(0), Missed];
    run, moves, last := DriveToEncoder(reqs, run, moves, 0, 0);
    assert last.pcs == [Encoding(0), Missed];
    run, moves, last := Extend(reqs, run, moves, 0);
    run, moves, last := Extend(reqs, run, moves, 0);
  }

  /**
   The probe of the cache stands before the lock, so single flight is per moment and not for
   ever: a caller that missed before the first transcode ended becomes the owner of a second
   one although the cache is complete.
   */
  lemma LateMissTranscodesAgain(p: Path) returns (reqs: seq<Request>, run: seq<State>, moves: seq<Move>)
    ensures IsRun(reqs, run, moves) && |reqs| == 2 && |run[|moves|].pcs| == 2
    ensures reqs[0].cachePath == reqs[1].cachePath == p
    ensures run[|moves|].pcs[0] == Returned(ServeCache) && At(run[|moves|].sh.cache, p) == Complete
    ensures run[|moves|].pcs[1].Encoding?
  {
    hide IsRun;
    var r := Request(true, true, NotPlayable, p);
    reqs := [r, r];
    var last := State(Shared(map[], {}, map[], 0, map[], map[]), [Entry, Entry]);
    run, moves, last := FirstTranscode(reqs, last);
    run, moves, last := Extend(reqs, run, moves, 0);
    assert last.pcs == [Returned(ServeCache), Missed] && p !in last.sh.inflight;
    run, moves, last := Extend(reqs, run, moves, 1);
    assert last.pcs[1].MakingDir?;
    run, moves, last := DriveToEncoder(reqs, run, moves, 1, last.pcs[1].ch);
  }

  /** A caller that has neither missed nor claimed the path. */
  predicate OutOfTheRace(pc: Pc) {
    pc.Entry? || pc.Waiting? || pc.Woken? || pc.Returned?
  }

  /** Once the cache is complete such a caller never claims the path; one that had not yet looked never even waits. */
  lemma {:induction false} CompleteCacheIsFinal(reqs: seq<Request>, run: seq<State>, moves: seq<Move>, i: nat, j: nat,
                                                c: Caller)
    requires IsRun(reqs, run, moves) && i <= j < |run| && c < |reqs| && |run[i].pcs| == |reqs|
    requires At(run[i].sh.cache, reqs[c].cachePath) == Complete && OutOfTheRace(run[i].pcs[c])
    ensures |run[j].pcs| == |reqs| && OutOfTheRace(run[j].pcs[c])
    ensures At(run[j].sh.cache, reqs[c].cachePath) == Complete
    ensures run[i].pcs[c] == Entry ==>
      run[j].pcs[c] == Entry || run[j].pcs[c] == Returned(ServeSource) || run[j].pcs[c] == Returned(ServeCache)
  {
    if i < j {
      CompleteCacheIsFinal(reqs, run, moves, i, j - 1, c);
      RunKeepsInv(reqs, run, moves, j - 1);
      var m := moves[j - 1];
      StepKeepsCache(reqs, run[j - 1], run[j], m.caller, m.luck);
      OneMove(reqs, run[j - 1], run[j], m, c);
    }
  }

  lemma OneMove(reqs: seq<Request>, s: State, t: State, m: Move, c: Caller)
    requires StepOf(reqs, s, t, m.caller, m.luck) && c < |reqs|
    requires At(s.sh.cache, reqs[c].cachePath) == Complete && OutOfTheRace(s.pcs[c])
    ensures OutOfTheRace(t.pcs[c])
    ensures s.pcs[c] == Entry ==>
      t.pcs[c] == Entry || t.pcs[c] == Returned(ServeSource) || t.pcs[c] == Returned(ServeCache)
    ensures s.pcs[c].Returned? ==> t.pcs[c] == s.pcs[c]
  {
  }

  /** `run'` and `moves'` go on from where the run stands. */
  ghost predicate GoesOn(run: seq<State>, moves: seq<Move>, run': seq<State>, moves': seq<Move>) {
    run <= run' && moves <= moves'
  }

  /** Lets the owner of a path finish its work, step by step, while everybody else stands still. */
  lemma {:induction false} DriveOwnerOut(reqs: seq<Request>, run: seq<State>, moves: seq<Move>, o: Caller)
    returns (run': seq<State>, moves': seq<Move>)
    requires IsRun(reqs, run, moves) && o < |reqs|
    requires Fits(reqs, run[|moves|]) && Owns(run[|moves|].pcs[o])
    ensures IsRun(reqs, run', moves') && GoesOn(run, moves, run', moves')
    ensures
      var (s, t) := (run[|moves|], run'[|moves'|]);
      && Fits(reqs, t) && reqs[o].cachePath !in t.sh.inflight
      && forall d | 0 <= d < |reqs| && d != o :: t.pcs[d] == s.pcs[d]
    decreases Rank(run[|moves|].pcs[o])
  {
    hide IsRun;
    var last;
    run', moves', last := Extend(reqs, run, moves, o);
    if Owns(last.pcs[o]) {
      run', moves' := DriveOwnerOut(reqs, run', moves', o);
    }
  }

  /** A caller that missed before the cache was complete can still be made to transcode again. */
  lemma MissedMayClaim(reqs: seq<Request>, run: seq<State>, moves: seq<Move>, c: Caller)
    returns (run': seq<State>, moves': seq<Move>)
    requires IsRun(reqs, run, moves) && c < |reqs| && Fits(reqs, run[|moves|]) && run[|moves|].pcs[c].Missed?
    ensures IsRun(reqs, run', moves') && GoesOn(run, moves, run', moves')
    ensures Fits(reqs, run'[|moves'|]) && Owns(run'[|moves'|].pcs[c])
  {
    var s, p := run[|moves|], reqs[c].cachePath;
    RunKeepsInv(reqs, run, moves, |moves|);
    hide IsRun;
    run', moves' := run, moves;
    if p in s.sh.inflight {
      assert HasOwner(reqs, s, p, s.sh.inflight[p]);
      var o :| 0 <= o < |reqs| && Owns(s.pcs[o]) && s.pcs[o].ch == s.sh.inflight[p] && reqs[o].cachePath == p;
      run', moves' := DriveOwnerOut(reqs, run, moves, o);
    }
    var last;
    run', moves', last := Extend(reqs, run', moves', c);
  }

  /** Some continuation of the run makes caller `c` the owner of its path. */
  ghost predicate MayClaim(reqs: seq<Request>, run: seq<State>, moves: seq<Move>, c: Caller)
    requires c < |reqs|
  {
    exists run': seq<State>, moves': seq<Move> ::
      IsRun(reqs, run', moves') && GoesOn(run, moves, run', moves') &&
      Fits(reqs, run'[|moves'|]) && Owns(run'[|moves'|].pcs[c])
  }

  /**
   With a complete file in the cache, a caller that does not own its path can still come to
   transcode it again exactly when it had looked, and missed, before the file was there.
   */
  lemma RepeatIffMissedBefore(reqs: seq<Request>, run: seq<State>, moves: seq<Move>, c: Caller)
    requires IsRun(reqs, run, moves) && c < |reqs| && Fits(reqs, run[|moves|])
    requires At(run[|moves|].sh.cache, reqs[c].cachePath) == Complete && !Owns(run[|moves|].pcs[c])
    ensures MayClaim(reqs, run, moves, c) <==> run[|moves|].pcs[c].Missed?
  {
    var n := |moves|;
    if run[n].pcs[c].Missed? {
      var run', moves' := MissedMayClaim(reqs, run, moves, c);
    } else {
      assert OutOfTheRace(run[n].pcs[c]);
      forall run': seq<State>, moves': seq<Move> | IsRun(reqs, run', moves') && GoesOn(run, moves, run', moves')
        ensures Fits(reqs, run'[|moves'|]) ==> !Owns(run'[|moves'|].pcs[c])
      {
        assert run'[n] == run[n];
        CompleteCacheIsFinal(reqs, run', moves', n, |moves'|, c);
      }
    }
  }

  // ---- One caller on its own, up to the point where it has to wait ----

  /** What a caller does without interruption; `fate` decides how each of its actions ends. */
  function Solo(r: Request, sh: Shared, pc: Pc, fate: Pc -> Luck): (Shared, Pc)
    decreases Rank(pc)
  {
    if !Enabled(sh, pc) then (sh, pc)
    else
      var (sh', pc') := Act(r, sh, pc, fate(pc));
      Solo(r, sh', pc', fate)
  }

  lemma SoloStep(r: Request, sh: Shared, pc: Pc, fate: Pc -> Luck)
    requires Enabled(sh, pc)
    ensures
      var (sh', pc') := Act(r, sh, pc, fate(pc));
      Solo(r, sh, pc, fate) == Solo(r, sh', pc', fate)
  {
  }

  lemma SoloReturned(r: Request, sh: Shared, answer: Answer, fate: Pc -> Luck)
    ensures Solo(r, sh, Returned(answer), fate) == (sh, Returned(answer))
  {
  }

  lemma SoloLeaving(r: Request, sh: Shared, ch: Channel, ok: bool, fate: Pc -> Luck)
    ensures Solo(r, sh, Leaving(ch, ok), fate) ==
            (Release(sh, r.cachePath, ch, ok), Returned(if ok then ServeCache else TranscodeFailed))
  {
    SoloStep(r, sh, Leaving(ch, ok), fate);
    assert !Enabled(Release(sh, r.cachePath, ch, ok), Returned(if ok then ServeCache else TranscodeFailed));
  }

  /** The owner's work, from a registered channel to the deferred release. */
  predicate WorkSucceeds(ch: Channel, fate: Pc -> Luck) {
    fate(MakingDir(ch)).ok && fate(Encoding(ch)).ok && fate(Renaming(ch)).ok
  }

  /**
   An uncontended call for an unplayable segment serves the cache exactly when a non-empty file stands
   there or when the work succeeds; afterwards the table is as before, no other path is touched, and
   no temporary file is left if the clean-up of a failed attempt works. Any other call serves the
   source and changes nothing.
   */
  lemma SoloAnswer(r: Request, sh: Shared, fate: Pc -> Luck)
    requires r.cachePath !in sh.inflight
    ensures
      var (sh', pc') := Solo(r, sh, Entry, fate);
      var found := At(sh.cache, r.cachePath) == Torn || At(sh.cache, r.cachePath) == Complete;
      var works := fate(MakingDir(sh.next)).ok && fate(Encoding(sh.next)).ok && fate(Renaming(sh.next)).ok;
      if !(r.isSegment && r.isMp4 && r.probe == NotPlayable) then sh' == sh && pc' == Returned(ServeSource)
      else
        && pc'.Returned? && sh'.inflight == sh.inflight
        && (pc' == Returned(ServeCache) <==> found || works)
        && (pc' != Returned(ServeCache) ==> pc' == Returned(TranscodeFailed) && sh'.cache == sh.cache)
        && (pc' == Returned(ServeCache) && !found ==> At(sh'.cache, r.cachePath) == Complete)
        && (found ==> sh' == sh)
        && (!found && fate(MakingDir(sh.next)).ok && fate(CleaningTmp(sh.next)).ok ==>
              At(sh'.tmp, r.cachePath) == Absent)
        && (forall p | p != r.cachePath :: At(sh'.cache, p) == At(sh.cache, p) && At(sh'.tmp, p) == At(sh.tmp, p))
  {
    hide Solo;
    var p, ch := r.cachePath, sh.next;
    SoloStep(r, sh, Entry, fate);
    if Bypasses(r) {
      SoloReturned(r, sh, ServeSource, fate);
    } else if StatHit(At(sh.cache, p)) {
      SoloReturned(r, sh, ServeCache, fate);
    } else {
      var sh1 := Claim(sh, p).0;
      SoloStep(r, sh, Missed, fate);
      OwnerSolo(r, sh1, ch, fate);
      assert sh1.inflight - {p} == sh.inflight;
    }
  }

  lemma OwnerSolo(r: Request, sh: Shared, ch: Channel, fate: Pc -> Luck)
    ensures
      var (sh', pc') := Solo(r, sh, MakingDir(ch), fate);
      && pc' == Returned(if WorkSucceeds(ch, fate) then ServeCache else TranscodeFailed)
      && sh'.inflight == sh.inflight - {r.cachePath} && sh'.closed == sh.closed + {ch}
      && sh'.cache == (if WorkSucceeds(ch, fate) then sh.cache[r.cachePath := Complete] else sh.cache)
      && (fate(MakingDir(ch)).ok && fate(CleaningTmp(ch)).ok ==> At(sh'.tmp, r.cachePath) == Absent)
      && (forall p | p != r.cachePath :: At(sh'.tmp, p) == At(sh.tmp, p))
  {
    hide Solo;
    SoloStep(r, sh, MakingDir(ch), fate);
    if fate(MakingDir(ch)).ok {
      var sh1 := Act(r, sh, WipingTmp(ch), fate(WipingTmp(ch))).0;
      var sh2 := Act(r, sh1, Launching(ch), fate(Launching(ch))).0;
      var (sh3, pc3) := Act(r, sh2, Encoding(ch), fate(Encoding(ch)));
      SoloStep(r, sh, WipingTmp(ch), fate);
      SoloStep(r, sh1, Launching(ch), fate);
      SoloStep(r, sh2, Encoding(ch), fate);
      OwnerTail(r, sh3, pc3, fate);
    } else {
      SoloLeaving(r, sh, ch, false, fate);
    }
  }

  lemma OwnerTail(r: Request, sh: Shared, pc: Pc, fate: Pc -> Luck)
    requires pc.CleaningTmp? || (pc.Renaming? && At(sh.tmp, r.cachePath) == Complete)
    ensures
      var (sh', pc') := Solo(r, sh, pc, fate);
      var ok := pc.Renaming? && fate(pc).ok;
      && pc' == Returned(if ok then ServeCache else TranscodeFailed)
      && sh'.inflight == sh.inflight - {r.cachePath} && sh'.closed == sh.closed + {pc.ch}
      && sh'.cache == (if ok then sh.cache[r.cachePath := Complete] else sh.cache)
      && (fate(CleaningTmp(pc.ch)).ok ==> At(sh'.tmp, r.cachePath) == Absent)
      && (forall p | p != r.cachePath :: At(sh'.tmp, p) == At(sh.tmp, p))
  {
    hide Solo;
    var (sh1, pc1) := Act(r, sh, pc, fate(pc));
    SoloStep(r, sh, pc, fate);
    if pc1.CleaningTmp? {
      var (sh2, pc2) := Act(r, sh1, pc1, fate(pc1));
      SoloStep(r, sh1, pc1, fate);
      SoloLeaving(r, sh2, pc.ch, false, fate);
    } else {
      SoloLeaving(r, sh1, pc.ch, pc1.ok, fate);
    }
  }
}

/** The registry and the disk as the process holds them, updated in place. */
module TranscodeRegistry {
  import opened TranscodeProtocol

  class Registry {
    var inflight: map<Path, Channel>
    var closed: set<Channel>
    var outcome: map<Channel, bool>
    var next: Channel
    var cache: map<Path, Slot>
    var tmp: map<Path, Slot>

    ghost function Value(): Shared
      reads this
    {
      Shared(inflight, closed, outcome, next, cache, tmp)
    }

    constructor (disk: map<Path, Slot>, leftovers: map<Path, Slot>)
      ensures Value() == Shared(map[], {}, map[], 0, disk, leftovers)
    {
      inflight, closed, outcome, next := map[], {}, map[], 0;
      cache, tmp := disk, leftovers;
    }

    method StatCache(p: Path) returns (hit: bool)
      ensures hit == StatHit(At(cache, p))
    {
      hit := p in cache && (cache[p].Torn? || cache[p].Complete?);
    }

    /** Looks the path up and, when nobody works on it, registers a fresh channel; all under the mutex. */
    method LookUpOrRegister(p: Path) returns (busy: bool, ch: Channel)
      modifies this
      ensures Claim(old(Value()), p) == (Value(), if busy then Waiting(ch) else MakingDir(ch))
    {
      if p in inflight {
        return true, inflight[p];
      }
      busy, ch := false, next;
      inflight, next := inflight[p := ch], next + 1;
    }

    /** The deferred clean-up of the owner, under the mutex. */
    method DeleteAndClose(p: Path, ch: Channel, ok: bool)
      modifies this
      ensures Value() == Release(old(Value()), p, ch, ok)
    {
      inflight := inflight - {p};
      closed := closed + {ch};
      outcome := outcome[ch := ok];
    }

    method RemoveTmp(p: Path, works: bool)
      modifies this`tmp
      ensures Value() == (if works then old(Value()).(tmp := old(tmp)[p := Absent]) else old(Value()))
    {
      if works {
        tmp := tmp[p := Absent];
      }
    }

    /** Wipes a leftover and lets the encoder write the temporary file. */
    method RunEncoder(r: Request, ch: Channel, fate: Pc -> Luck) returns (ok: bool)
      modifies this`tmp
      ensures ok == fate(Encoding(ch)).ok && (ok ==> At(tmp, r.cachePath) == Complete)
      ensures Solo(r, old(Value()), WipingTmp(ch), fate) ==
              Solo(r, Value(), if ok then Renaming(ch) else CleaningTmp(ch), fate)
    {
      var p := r.cachePath;
      SoloStep(r, Value(), WipingTmp(ch), fate);
      RemoveTmp(p, fate(WipingTmp(ch)).ok);
      SoloStep(r, Value(), Launching(ch), fate);
      tmp := tmp[p := Torn];
      SoloStep(r, Value(), Encoding(ch), fate);
      ok := fate(Encoding(ch)).ok;
      tmp := tmp[p := if ok then Complete else fate(Encoding(ch)).left];
    }

    /** Runs the encoder into the temporary file and renames it into place. */
    method TranscodeToH264(r: Request, ch: Channel, fate: Pc -> Luck) returns (ok: bool)
      modifies this`cache, this`tmp
      ensures ok == WorkSucceeds(ch, fate)
      ensures Solo(r, old(Value()), MakingDir(ch), fate) == Solo(r, Value(), Leaving(ch, ok), fate)
    {
      SoloStep(r, Value(), MakingDir(ch), fate);
      if !fate(MakingDir(ch)).ok {
        return false;
      }
      var encoded := RunEncoder(r, ch, fate);
      if encoded {
        SoloStep(r, Value(), Renaming(ch), fate);
        if fate(Renaming(ch)).ok {
          cache := cache[r.cachePath := tmp[r.cachePath]];
          tmp := tmp[r.cachePath := Absent];
          return true;
        }
      }
      SoloStep(r, Value(), CleaningTmp(ch), fate);
      RemoveTmp(r.cachePath, fate(CleaningTmp(ch)).ok);
      return false;
    }

    /** One request, up to its answer or up to the channel it has to wait on. */
    method MaybeTranscodeForBrowser(r: Request, fate: Pc -> Luck) returns (pc: Pc)
      requires forall p | p in inflight :: inflight[p] !in closed
      modifies this
      ensures (Value(), pc) == Solo(r, old(Value()), Entry, fate)
      ensures pc.Returned? || (pc.Waiting? && r.cachePath in inflight && pc.ch == inflight[r.cachePath])
    {
      if Bypasses(r) {
        return Returned(ServeSource);
      }
      var hit := StatCache(r.cachePath);
      if hit {
        return Returned(ServeCache);
      }
      ghost var sh0 := Value();
      var busy, ch := LookUpOrRegister(r.cachePath);
      assert Solo(r, sh0, Entry, fate) == Solo(r, sh0, Missed, fate);
      if busy {
        assert Solo(r, sh0, Missed, fate) == Solo(r, Value(), Waiting(ch), fate);
        return Waiting(ch);
      }
      assert Solo(r, sh0, Missed, fate) == Solo(r, Value(), MakingDir(ch), fate);
      var ok := TranscodeToH264(r, ch, fate);
      SoloLeaving(r, Value(), ch, ok, fate);
      DeleteAndClose(r.cachePath, ch, ok);
      pc := Returned(if ok then ServeCache else TranscodeFailed);
    }

    /** The waiter's second probe, once its channel is closed. */
    method Recheck(r: Request, ch: Channel, fate: Pc -> Luck) returns (pc: Pc)
      requires ch in closed
      ensures (Value(), pc) == Solo(r, Value(), Waiting(ch), fate)
    {
      var hit := StatCache(r.cachePath);
      SoloStep(r, Value(), Waiting(ch), fate);
      SoloStep(r, Value(), Woken(ch), fate);
      return Returned(if hit then ServeCache else WaitedInVain(ch));
    }
  }
}
