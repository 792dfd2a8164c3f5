/**
 The alarm path of the cameras started at boot: a cooldown per bucket, with all motion-style
 topics of a camera in one bucket.
 Times are nanoseconds.
 */
module AlarmCooldown {
  import opened Text

  type Time = int

  const SECOND: int := 1_000_000_000
  const COOLDOWN: int := 60 * SECOND

  const MOTION_TOPICS: set<string> :=
    {"linecross", "object", "intrusion", "loitering", "human", "vehicle", "motion"}

  const ALARM_TYPES: set<string> :=
    {"intrusion", "linecross", "human", "vehicle", "face", "loitering", "lpr", "object"}

  function Key(camId: string, evtType: string): string {
    if evtType in MOTION_TOPICS then camId + ":motion" else camId + ":" + evtType
  }

  /**
   One alarm check: the verdict and the new table. The elapsed time is taken at `check`, the
   time stored is read later, at `store`.
   */
  function Allow(last: map<string, Time>, key: string, check: Time, store: Time): (bool, map<string, Time>) {
    if key in last && check - last[key] < COOLDOWN then (false, last) else (true, last[key := store])
  }

  class AlarmLimiter {
    var alarmLastFired: map<string, Time>

    constructor ()
      ensures alarmLastFired == map[]
    {
      alarmLastFired := map[];
    }

    method AllowAlarm(camId: string, evtType: string, check: Time, store: Time) returns (ok: bool)
      modifies this
      ensures Allow(old(alarmLastFired), Key(camId, evtType), check, store) == (ok, alarmLastFired)
    {
      var key := camId + ":" + evtType;
      if evtType in MOTION_TOPICS {
        key := camId + ":motion";
      }
      if key in alarmLastFired {
        var t := alarmLastFired[key];
        if check - t < COOLDOWN {
          return false;
        }
      }
      alarmLastFired := alarmLastFired[key := store];
      return true;
    }

    /** Only alarm-worthy events reach the cooldown; any other event leaves it alone. */
    method OnEvent(camId: string, eventType: string, check: Time, store: Time) returns (alarm: bool)
      modifies this
      ensures !AlarmWorthy(eventType) ==> !alarm && alarmLastFired == old(alarmLastFired)
      ensures AlarmWorthy(eventType) ==>
        Allow(old(alarmLastFired), Key(camId, eventType), check, store) == (alarm, alarmLastFired)
    {
      alarm := eventType in ALARM_TYPES;
      if alarm {
        alarm := AllowAlarm(camId, eventType, check, store);
      }
    }
  }

  // ---- Buckets ----

  /** The analytics topics that count as motion, whichever rule on the camera raised them. */
  predicate MotionStyle(t: string) {
    t == "motion" || t == "human" || t == "vehicle" || t == "object" || t == "intrusion" || t == "linecross" ||
    t == "loitering"
  }

  /** The recognisers raise alarms too, each in a bucket of its own; plain motion raises none. */
  predicate AlarmWorthy(t: string) {
    t == "face" || t == "lpr" || (MotionStyle(t) && t != "motion")
  }

  predicate SameBucket(camId: string, evtType: string, otherCam: string, otherType: string) {
    camId == otherCam && (evtType == otherType || (MotionStyle(evtType) && MotionStyle(otherType)))
  }

  /** Camera ids hold no colon (they are UUIDs), so the text keys are equal exactly within a bucket. */
  lemma KeysAreBuckets(camId: string, evtType: string, otherCam: string, otherType: string)
    requires ':' !in camId && ':' !in otherCam
    ensures Key(camId, evtType) == Key(otherCam, otherType) <==> SameBucket(camId, evtType, otherCam, otherType)
  {
    var a := if evtType in MOTION_TOPICS then "motion" else evtType;
    var b := if otherType in MOTION_TOPICS then "motion" else otherType;
    assert Key(camId, evtType) == camId + ":" + a && Key(otherCam, otherType) == otherCam + ":" + b by {
      assert camId + ":motion" == camId + ":" + "motion" && otherCam + ":motion" == otherCam + ":" + "motion";
    }
    CutAt(camId, a, otherCam, b, ':');
  }

  // ---- Runs ----

  datatype Firing = Firing(camId: string, evtType: string, check: Time, store: Time) {
    function BucketKey(): string { Key(camId, evtType) }
  }

  /** The mutex orders the calls: a call's two clock readings come after those of all earlier calls. */
  ghost predicate ClockRuns(run: seq<Firing>) {
    && (forall i | 0 <= i < |run| :: run[i].check <= run[i].store)
    && (forall i, j | 0 <= i < j < |run| :: run[i].store <= run[j].check)
  }

  function LastFired(run: seq<Firing>): map<string, Time> {
    if run == [] then map[]
    else
      var f := run[|run| - 1];
      Allow(LastFired(run[..|run| - 1]), f.BucketKey(), f.check, f.store).1
  }

  /** The i-th alarm of the run is let through. */
  predicate Accepted(run: seq<Firing>, i: nat)
    requires i < |run|
  {
    Allow(LastFired(run[..i]), run[i].BucketKey(), run[i].check, run[i].store).0
  }

  predicate AcceptedFor(run: seq<Firing>, i: nat, key: string) {
    i < |run| && run[i].BucketKey() == key && Accepted(run, i)
  }

  lemma AcceptedInPrefix(run: seq<Firing>, n: nat, i: nat, key: string)
    requires i < n <= |run|
    ensures AcceptedFor(run[..n], i, key) == AcceptedFor(run, i, key)
  {
    assert run[..n][..i] == run[..i];
  }

  lemma Unfold(run: seq<Firing>)
    requires run != []
    ensures
      var n := |run| - 1;
      (Accepted(run, n), LastFired(run)) ==
        Allow(LastFired(run[..n]), run[n].BucketKey(), run[n].check, run[n].store)
  {
    hide Allow;
  }

  /** The table holds, for each bucket, the time of its latest accepted alarm. */
  lemma {:induction false} TableIsLatest(run: seq<Firing>, key: string) returns (k: int)
    ensures -1 <= k < |run|
    ensures k >= 0 ==> AcceptedFor(run, k, key) && key in LastFired(run) && LastFired(run)[key] == run[k].store
    ensures k < 0 ==> key !in LastFired(run)
    ensures forall i: nat | k < i < |run| :: !AcceptedFor(run, i, key)
  {
    hide LastFired, Accepted;
    if run == [] {
      k := -1;
      assert LastFired(run) == map[] by { EmptyTable(); }
    } else {
      var n := |run| - 1;
      Unfold(run);
      var j := TableIsLatest(run[..n], key);
      forall i: nat | i < n ensures AcceptedFor(run[..n], i, key) == AcceptedFor(run, i, key) {
        AcceptedInPrefix(run, n, i, key);
      }
      k := if AcceptedFor(run, n, key) then n else j;
    }
  }

  lemma EmptyTable()
    ensures LastFired([]) == map[]
  {
  }

  /** An alarm is suppressed exactly when an accepted alarm of its bucket fired less than 60 s before. */
  lemma SuppressedIffRecent(run: seq<Firing>, i: nat)
    requires ClockRuns(run) && i < |run|
    ensures !Accepted(run, i) <==>
      exists j: nat | j < i :: AcceptedFor(run, j, run[i].BucketKey()) && run[i].check - run[j].store < 60 * SECOND
  {
    hide LastFired, AcceptedFor;
    var key, before := run[i].BucketKey(), run[..i];
    var k := TableIsLatest(before, key);
    forall j: nat | j < i ensures AcceptedFor(before, j, key) == AcceptedFor(run, j, key) {
      AcceptedInPrefix(run, i, j, key);
    }
    if k >= 0 {
      assert AcceptedFor(run, k, key);
      assert forall j: nat | j < k :: run[j].store <= run[k].check;
    }
  }

  /** Accepted alarms of one bucket are at least 60 s apart. */
  lemma AcceptedApart(run: seq<Firing>, i: nat, j: nat)
    requires ClockRuns(run) && i < j < |run|
    requires Accepted(run, i) && Accepted(run, j)
    requires run[i].BucketKey() == run[j].BucketKey()
    ensures run[j].check - run[i].store >= 60 * SECOND
    ensures run[j].store - run[i].store >= 60 * SECOND
  {
    hide LastFired;
    SuppressedIffRecent(run, j);
    assert AcceptedFor(run, i, run[j].BucketKey());
  }

  /** Stated on cameras and topics: any two motion topics of one camera share a cooldown. */
  lemma MotionTopicsShareOneCooldown(run: seq<Firing>, i: nat, j: nat)
    requires ClockRuns(run) && i < j < |run|
    requires Accepted(run, i) && Accepted(run, j)
    requires ':' !in run[i].camId && ':' !in run[j].camId
    requires SameBucket(run[i].camId, run[i].evtType, run[j].camId, run[j].evtType)
    ensures run[j].store - run[i].store >= 60 * SECOND
  {
    hide LastFired, Key;
    KeysAreBuckets(run[i].camId, run[i].evtType, run[j].camId, run[j].evtType);
    AcceptedApart(run, i, j);
  }

  /** The alarms of one bucket. */
  function Only(run: seq<Firing>, key: string): seq<Firing> {
    if run == [] then []
    else
      var n := |run| - 1;
      if run[n].BucketKey() == key then Only(run[..n], key) + [run[n]] else Only(run[..n], key)
  }

  /** An entry depends on its own bucket's alarms alone. */
  lemma {:induction false} BucketKeepsItsEntry(run: seq<Firing>, key: string)
    ensures key in LastFired(run) <==> key in LastFired(Only(run, key))
    ensures key in LastFired(run) ==> LastFired(run)[key] == LastFired(Only(run, key))[key]
  {
    hide LastFired, Accepted;
    if run == [] {
      EmptyTable();
    } else {
      var n := |run| - 1;
      var before := Only(run[..n], key);
      BucketKeepsItsEntry(run[..n], key);
      Unfold(run);
      if run[n].BucketKey() == key {
        assert (before + [run[n]])[..|before|] == before;
        Unfold(before + [run[n]]);
      }
    }
  }

  /** Alarms of other buckets decide nothing: the verdict is the one the bucket's own alarms would give. */
  lemma OtherBucketsDecideNothing(run: seq<Firing>, i: nat)
    requires i < |run|
    ensures
      var own := Only(run[..i], run[i].BucketKey());
      Accepted(run, i) <==> Accepted(own + [run[i]], |own|)
  {
    hide LastFired, Only;
    var own := Only(run[..i], run[i].BucketKey());
    BucketKeepsItsEntry(run[..i], run[i].BucketKey());
    assert (own + [run[i]])[..|own|] == own;
  }

  /** In particular an alarm alone in its bucket goes through, whatever else fired. */
  lemma FirstOfItsBucketPasses(run: seq<Firing>, i: nat)
    requires ClockRuns(run) && i < |run|
    requires forall j | 0 <= j < |run| :: ':' !in run[j].camId
    requires forall j | 0 <= j < i :: !SameBucket(run[j].camId, run[j].evtType, run[i].camId, run[i].evtType)
    ensures Accepted(run, i)
  {
    hide Accepted, Key, SameBucket;
    SuppressedIffRecent(run, i);
    forall j: nat | j < i ensures run[j].BucketKey() != run[i].BucketKey() {
      KeysAreBuckets(run[j].camId, run[j].evtType, run[i].camId, run[i].evtType);
    }
  }
}
