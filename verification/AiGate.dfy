/** The in-flight gate: alarm goroutines that may each run one AI inference for their camera. */
module AiGate {

  /** The gate shared by the goroutines. */
  class Gate {
    var aiInFlight: map<string, bool>

    constructor ()
      ensures aiInFlight == map[]
    {
      aiInFlight := map[];
    }

    method TryAcquireAI(camId: string) returns (ok: bool)
      modifies this
      ensures (ok, aiInFlight) == TryAcquire(old(aiInFlight), camId)
    {
      if camId in aiInFlight && aiInFlight[camId] {
        return false;
      }
      aiInFlight := aiInFlight[camId := true];
      return true;
    }

    method ReleaseAI(camId: string)
      modifies this
      ensures aiInFlight == old(aiInFlight) - {camId}
    {
      aiInFlight := aiInFlight - {camId};
    }
  }

  function TryAcquire(inFlight: map<string, bool>, camId: string): (bool, map<string, bool>) {
    if camId in inFlight && inFlight[camId] then (false, inFlight) else (true, inFlight[camId := true])
  }

  /** A goroutine: before the gate, inside the inference, done with it, or turned away. */
  datatype Pc = Ready | Running | Finished | Skipped
  datatype Task = Task(camId: string, pc: Pc)
  datatype State = State(inFlight: map<string, bool>, tasks: seq<Task>)
  datatype Act = Acquire(i: nat) | Release(i: nat)

  predicate Can(s: State, a: Act) {
    a.i < |s.tasks| && s.tasks[a.i].pc == (if a.Acquire? then Ready else Running)
  }

  /** One goroutine passes the gate, or its deferred release runs. */
  function Do(s: State, a: Act): State
    requires Can(s, a)
  {
    var t := s.tasks[a.i];
    if a.Acquire? then
      var (ok, inFlight) := TryAcquire(s.inFlight, t.camId);
      State(inFlight, s.tasks[a.i := t.(pc := if ok then Running else Skipped)])
    else
      State(s.inFlight - {t.camId}, s.tasks[a.i := t.(pc := Finished)])
  }

  /** The acts are a run from an open gate with every goroutine ready, ending in `s`. */
  ghost predicate IsRun(cams: seq<string>, acts: seq<Act>, s: State) {
    if acts == [] then s == State(map[], seq(|cams|, i requires 0 <= i < |cams| => Task(cams[i], Ready)))
    else
      var n := |acts| - 1;
      exists before: State :: IsRun(cams, acts[..n], before) && Can(before, acts[n]) && s == Do(before, acts[n])
  }

  ghost function RunningFor(s: State, cam: string): set<nat> {
    set i: nat | i < |s.tasks| && s.tasks[i].camId == cam && s.tasks[i].pc == Running
  }

  /** The gate is closed for a camera exactly while one goroutine runs an inference for it. */
  ghost predicate Inv(s: State) {
    forall cam :: |RunningFor(s, cam)| == (if cam in s.inFlight then 1 else 0) &&
                  (cam in s.inFlight ==> s.inFlight[cam])
  }

  lemma StepRunning(s: State, a: Act, cam: string)
    requires Can(s, a)
    ensures
      var (r, q) := (RunningFor(s, cam), RunningFor(Do(s, a), cam));
      q == if cam != s.tasks[a.i].camId then r
           else if a.Release? then r - {a.i}
           else if TryAcquire(s.inFlight, cam).0 then r + {a.i} else r
    ensures a.i in RunningFor(s, cam) <==> a.Release? && cam == s.tasks[a.i].camId
  {
    hide TryAcquire;
    var q := Do(s, a);
    assert forall i | 0 <= i < |s.tasks| && i != a.i :: q.tasks[i] == s.tasks[i];
  }

  lemma StepKeepsInv(s: State, a: Act)
    requires Inv(s) && Can(s, a)
    ensures Inv(Do(s, a))
  {
    hide RunningFor;
    var q := Do(s, a);
    forall cam
      ensures |RunningFor(q, cam)| == (if cam in q.inFlight then 1 else 0) && (cam in q.inFlight ==> q.inFlight[cam])
    {
      StepRunning(s, a, cam);
      assert |RunningFor(s, cam)| == (if cam in s.inFlight then 1 else 0);
    }
  }

  lemma {:induction false} RunKeepsInv(cams: seq<string>, acts: seq<Act>, s: State)
    requires IsRun(cams, acts, s)
    ensures Inv(s)
    decreases |acts|
  {
    hide Inv, Do, Can;
    if acts == [] {
      StartInv(cams, s);
    } else {
      var n := |acts| - 1;
      var before: State :| IsRun(cams, acts[..n], before) && Can(before, acts[n]) && s == Do(before, acts[n]);
      RunKeepsInv(cams, acts[..n], before);
      StepKeepsInv(before, acts[n]);
    }
  }

  lemma StartInv(cams: seq<string>, s: State)
    requires IsRun(cams, [], s)
    ensures Inv(s)
  {
    forall cam ensures RunningFor(s, cam) == {} {}
  }

  lemma TwoRunning(s: State, i: nat, j: nat)
    requires i < j < |s.tasks| && s.tasks[i].pc == Running && s.tasks[j].pc == Running
    ensures s.tasks[i].camId == s.tasks[j].camId ==> |RunningFor(s, s.tasks[i].camId)| >= 2
  {
    var r := RunningFor(s, s.tasks[i].camId);
    if s.tasks[i].camId == s.tasks[j].camId {
      assert r == {i, j} + (r - {i, j});
    }
  }

  /** Two goroutines inside an inference work for different cameras. */
  lemma OneInferencePerCamera(cams: seq<string>, acts: seq<Act>, s: State, i: nat, j: nat)
    requires IsRun(cams, acts, s)
    requires i < j < |s.tasks| && s.tasks[i].pc == Running && s.tasks[j].pc == Running
    ensures s.tasks[i].camId != s.tasks[j].camId
  {
    hide IsRun;
    RunKeepsInv(cams, acts, s);
    var cam := s.tasks[i].camId;
    assert |RunningFor(s, cam)| <= 1;
    TwoRunning(s, i, j);
  }

  /** A goroutine is turned away exactly when another one runs an inference for its camera. */
  lemma SkippedIffBusy(cams: seq<string>, acts: seq<Act>, s: State, i: nat)
    requires IsRun(cams, acts, s) && Can(s, Acquire(i))
    ensures Do(s, Acquire(i)).tasks[i].pc == Skipped <==>
      exists j: nat | j < |s.tasks| :: s.tasks[j].camId == s.tasks[i].camId && s.tasks[j].pc == Running
  {
    hide IsRun;
    RunKeepsInv(cams, acts, s);
    var cam := s.tasks[i].camId;
    assert |RunningFor(s, cam)| == if cam in s.inFlight then 1 else 0;
    if cam in s.inFlight {
      var j :| j in RunningFor(s, cam);
    } else {
      assert RunningFor(s, cam) == {};
      forall j: nat | j < |s.tasks| && s.tasks[j].camId == cam ensures s.tasks[j].pc != Running {
        assert j !in RunningFor(s, cam);
      }
    }
  }

  /** How often goroutine i ran the given act. */
  function Times(acts: seq<Act>, a: Act): nat {
    if acts == [] then 0
    else Times(acts[..|acts| - 1], a) + (if acts[|acts| - 1] == a then 1 else 0)
  }

  /** A goroutine tries the gate at most once, and one that got through releases it exactly once. */
  lemma {:induction false} AcquiresMatchReleases(cams: seq<string>, acts: seq<Act>, s: State, i: nat)
    requires IsRun(cams, acts, s) && i < |cams|
    ensures |s.tasks| == |cams| && s.tasks[i].camId == cams[i]
    ensures Times(acts, Acquire(i)) == (if s.tasks[i].pc == Ready then 0 else 1)
    ensures Times(acts, Release(i)) == (if s.tasks[i].pc == Finished then 1 else 0)
    decreases |acts|
  {
    if acts != [] {
      var n := |acts| - 1;
      var before: State :| IsRun(cams, acts[..n], before) && Can(before, acts[n]) && s == Do(before, acts[n]);
      AcquiresMatchReleases(cams, acts[..n], before, i);
    }
  }

  /** Once no inference runs, the gate holds nothing back: every camera is free again. */
  lemma QuietGateIsOpen(cams: seq<string>, acts: seq<Act>, s: State)
    requires IsRun(cams, acts, s)
    requires forall i | 0 <= i < |s.tasks| :: s.tasks[i].pc != Running
    ensures s.inFlight == map[]
  {
    hide IsRun;
    RunKeepsInv(cams, acts, s);
    forall cam ensures cam !in s.inFlight {
      assert RunningFor(s, cam) == {};
      assert |RunningFor(s, cam)| == if cam in s.inFlight then 1 else 0;
    }
  }

  /**
   A release frees its camera and no other: a goroutine of that camera was turned away before it and
   gets through after it, and one of another camera finds the gate as it was.
   */
  lemma ReleaseFreesItsCamera(cams: seq<string>, acts: seq<Act>, s: State, i: nat, j: nat)
    requires IsRun(cams, acts, s) && Can(s, Release(i)) && Can(s, Acquire(j))
    ensures
      var t := Do(s, Release(i));
      && Can(t, Acquire(j))
      && (s.tasks[j].camId == s.tasks[i].camId ==>
            Do(s, Acquire(j)).tasks[j].pc == Skipped && Do(t, Acquire(j)).tasks[j].pc == Running)
      && (s.tasks[j].camId != s.tasks[i].camId ==> Do(t, Acquire(j)).tasks[j].pc == Do(s, Acquire(j)).tasks[j].pc)
  {
    hide IsRun;
    RunKeepsInv(cams, acts, s);
    var cam := s.tasks[i].camId;
    assert i in RunningFor(s, cam);
    assert |RunningFor(s, cam)| == if cam in s.inFlight then 1 else 0;
  }
}
