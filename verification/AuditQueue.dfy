/**
 The media audit queue: producers that never block, a bounded channel, and one consumer that
 batches rows, flushes on a ticker, and drains the channel when it is stopped.
 */
module AuditQueue {
  import opened Text

  const RING_SIZE: nat := 1024
  const FLUSH_BATCH: nat := 100

  datatype Row = Row(
    when: int, userID: nat, username: string, cameraID: string, path: string, kind: string, ip: string)

  /** The consumer is in its main loop, in the drain loop, or gone. */
  datatype Phase = Running | Draining | Exited

  /** `flushed` is the batches handed to the database; `accepted` and `dropped` are history. */
  datatype State = State(
    channel: seq<Row>,
    pending: seq<Row>,
    flushed: seq<seq<Row>>,
    stop: bool,
    phase: Phase,
    accepted: seq<Row>,
    dropped: seq<Row>)

  datatype Event =
    | Enqueue(row: Row)   // a producer
    | StopCalled          // Stop closes the stop channel
    | Receive             // the main loop takes a row
    | Tick                // the main loop sees the ticker
    | SeeStop             // the main loop sees the stop channel
    | DrainReceive        // the drain loop takes a row
    | DrainEmpty          // the drain loop finds the channel empty, flushes and returns

  /** Which events can happen; a select picks among those that can. */
  predicate Can(s: State, e: Event) {
    match e
    case Enqueue(_) => true
    case StopCalled => !s.stop
    case Receive => s.phase == Running && s.channel != []
    case Tick => s.phase == Running
    case SeeStop => s.phase == Running && s.stop
    case DrainReceive => s.phase == Draining && s.channel != []
    case DrainEmpty => s.phase == Draining && s.channel == []
  }

  /** `flush`: nothing for an empty batch. */
  function Flush(s: State): State {
    if s.pending == [] then s else s.(flushed := s.flushed + [s.pending], pending := [])
  }

  /** A received row joins the batch, which is flushed when it is full. */
  function Take(s: State): State
    requires s.channel != []
  {
    var t := s.(channel := s.channel[1..], pending := s.pending + [s.channel[0]]);
    if |t.pending| >= FLUSH_BATCH then Flush(t) else t
  }

  function Do(s: State, e: Event): State
    requires Can(s, e)
  {
    match e
    case Enqueue(row) =>
      if |s.channel| < RING_SIZE then s.(channel := s.channel + [row], accepted := s.accepted + [row])
      else s.(dropped := s.dropped + [row])
    case StopCalled => s.(stop := true)
    case Receive => Take(s)
    case Tick => Flush(s)
    case SeeStop => s.(phase := Draining)
    case DrainReceive => Take(s)
    case DrainEmpty => Flush(s).(phase := Exited)
  }

  const START := State([], [], [], false, Running, [], [])

  /** An interleaving of producers, ticker, stop and consumer. */
  ghost predicate IsRun(run: seq<State>, events: seq<Event>) {
    && |run| == |events| + 1 && run[0] == START
    && forall i | 0 <= i < |events| :: Can(run[i], events[i]) && run[i + 1] == Do(run[i], events[i])
  }

  function Concat(batches: seq<seq<Row>>): seq<Row> {
    if batches == [] then [] else Concat(batches[..|batches| - 1]) + batches[|batches| - 1]
  }

  /** Accepted rows, in order, are the flushed batches, then the batch in hand, then the channel. */
  ghost predicate Conserved(s: State) {
    s.accepted == Concat(s.flushed) + s.pending + s.channel
  }

  ghost predicate Bounded(s: State) {
    && |s.pending| < 100 && |s.channel| <= 1024
    && (forall i | 0 <= i < |s.flushed| :: 1 <= |s.flushed[i]| <= 100)
    && (s.phase != Running ==> s.stop)
    && (s.phase == Exited ==> s.pending == [])
  }

  lemma FlushKeeps(s: State)
    requires Conserved(s)
    ensures Conserved(Flush(s))
  {
    var t := Flush(s);
    if s.pending != [] {
      assert t.flushed[..|t.flushed| - 1] == s.flushed;
      assert Concat(t.flushed) + [] + s.channel == Concat(s.flushed) + s.pending + s.channel;
    }
  }

  lemma TakeKeeps(s: State)
    requires Conserved(s) && s.channel != []
    ensures Conserved(Take(s))
  {
    var t := s.(channel := s.channel[1..], pending := s.pending + [s.channel[0]]);
    assert s.channel == [s.channel[0]] + s.channel[1..];
    assert Conserved(t);
    FlushKeeps(t);
  }

  lemma StepKeeps(s: State, e: Event)
    requires Conserved(s) && Bounded(s) && Can(s, e)
    ensures Conserved(Do(s, e)) && Bounded(Do(s, e))
  {
    hide Concat;
    match e
    case Enqueue(row) =>
      assert Concat(s.flushed) + s.pending + (s.channel + [row]) == (Concat(s.flushed) + s.pending + s.channel) + [row];
    case Receive => TakeKeeps(s);
    case DrainReceive => TakeKeeps(s);
    case Tick => FlushKeeps(s);
    case DrainEmpty => FlushKeeps(s);
    case _ =>
  }

  /** In every interleaving no accepted row is lost, doubled or reordered, and every batch has 1 to 100 rows. */
  lemma {:induction false} AuditConservation(run: seq<State>, events: seq<Event>, i: nat)
    requires IsRun(run, events) && i < |run|
    ensures Conserved(run[i]) && Bounded(run[i])
  {
    if i > 0 {
      AuditConservation(run, events, i - 1);
      StepKeeps(run[i - 1], events[i - 1]);
    } else {
      assert Concat([]) + [] + [] == [];
    }
  }

  function Offered(events: seq<Event>): seq<Row> {
    if events == [] then []
    else
      var e := events[|events| - 1];
      Offered(events[..|events| - 1]) + (if e.Enqueue? then [e.row] else [])
  }

  lemma StepOffers(s: State, e: Event)
    requires Can(s, e)
    ensures
      var t := Do(s, e);
      multiset(t.accepted) + multiset(t.dropped) ==
      multiset(s.accepted) + multiset(s.dropped) + (if e.Enqueue? then multiset{e.row} else multiset{})
  {
    if e.Enqueue? {
      assert multiset([e.row]) == multiset{e.row};
    }
  }

  /** Every offered row is either accepted or dropped. */
  lemma {:induction false} NothingVanishes(run: seq<State>, events: seq<Event>, i: nat)
    requires IsRun(run, events) && i < |run|
    ensures multiset(Offered(events[..i])) == multiset(run[i].accepted) + multiset(run[i].dropped)
  {
    if i > 0 {
      NothingVanishes(run, events, i - 1);
      var e := events[i - 1];
      StepOffers(run[i - 1], e);
      hide Do, Can;
      assert events[..i][..i - 1] == events[..i - 1] && events[..i][i - 1] == e;
      assert Offered(events[..i]) == Offered(events[..i - 1]) + (if e.Enqueue? then [e.row] else []);
    }
  }

  /** A row is dropped only at a moment when the channel holds 1024 rows. */
  lemma DropsOnlyWhenFull(run: seq<State>, events: seq<Event>, i: nat)
    requires IsRun(run, events) && i < |events|
    ensures run[i + 1].dropped != run[i].dropped ==> |run[i].channel| == 1024 && events[i].Enqueue?
    ensures events[i].Enqueue? && |run[i].channel| < 1024 ==>
      run[i + 1].accepted == run[i].accepted + [events[i].row]
  {
    AuditConservation(run, events, i);
  }

  /** The rows in hand leave as one batch: at a tick, at the end of the drain, or when there are a hundred. */
  lemma FlushesAre(run: seq<State>, events: seq<Event>, i: nat)
    requires IsRun(run, events) && i < |events|
    ensures
      var (s, t, e) := (run[i], run[i + 1], events[i]);
      var hand := s.pending + (if e.Receive? || e.DrainReceive? then s.channel[..1] else []);
      var leaves := (hand != [] && (e.Tick? || e.DrainEmpty?)) || |hand| == 100;
      && t.flushed == (if leaves then s.flushed + [hand] else s.flushed)
      && t.pending == (if leaves then [] else hand)
  {
    AuditConservation(run, events, i);
    var s := run[i];
    if s.channel != [] { assert s.channel[..1] == [s.channel[0]]; }
    assert s.pending + [] == s.pending;
  }

  /** After a tick every row received before it is flushed, and stays so. */
  lemma {:induction false} TickEndsTheWait(run: seq<State>, events: seq<Event>, i: nat, j: nat)
    requires IsRun(run, events) && i < |events| && events[i] == Tick && i < j < |run|
    ensures Concat(run[i].flushed) + run[i].pending <= Concat(run[j].flushed)
    decreases j - i
  {
    hide Do, Can, Take;
    AuditConservation(run, events, i);
    FlushesAre(run, events, j - 1);
    var s, t := run[j - 1], run[j];
    if t.flushed != s.flushed { assert t.flushed[..|t.flushed| - 1] == s.flushed; }
    if j == i + 1 {
      assert s.pending + [] == s.pending;
    } else {
      TickEndsTheWait(run, events, i, j - 1);
    }
  }

  /**
   Once the drain has seen an empty channel, everything accepted up to then is flushed, and
   what stays behind is exactly what was enqueued after that.
   */
  lemma {:induction false} StopLosesOnlyLateRows(run: seq<State>, events: seq<Event>, i: nat, j: nat)
    requires IsRun(run, events) && i < |events| && events[i] == DrainEmpty && i + 1 <= j < |run|
    ensures run[j].phase == Exited && run[j].pending == []
    ensures Concat(run[j].flushed) == run[i].accepted
    ensures run[j].accepted == run[i].accepted + run[j].channel
  {
    if j == i + 1 {
      AuditConservation(run, events, j);
      var s := run[j];
      assert Concat(s.flushed) + [] + [] == Concat(s.flushed);
    } else {
      StopLosesOnlyLateRows(run, events, i, j - 1);
      assert Can(run[j - 1], events[j - 1]);
    }
  }

  /** The drain loop on its own: the consumer's steps when no producer interferes. */
  function DrainAll(s: State): State
    requires s.phase == Draining
    decreases |s.channel|
  {
    if s.channel == [] then Do(s, DrainEmpty) else DrainAll(Do(s, DrainReceive))
  }

  /** Left alone, the drain loop ends with every accepted row flushed. */
  lemma {:induction false} DrainFlushesAll(s: State)
    requires s.phase == Draining && Conserved(s) && Bounded(s)
    ensures
      var t := DrainAll(s);
      t.phase == Exited && t.channel == [] && t.accepted == s.accepted && Concat(t.flushed) == s.accepted
    decreases |s.channel|
  {
    if s.channel == [] {
      StepKeeps(s, DrainEmpty);
      var t := Do(s, DrainEmpty);
      assert Concat(t.flushed) + [] + [] == Concat(t.flushed);
    } else {
      StepKeeps(s, DrainReceive);
      DrainFlushesAll(Do(s, DrainReceive));
    }
  }

  /** From any moment of any run: stopped and left alone, the consumer flushes everything accepted. */
  lemma StopFlushesAll(run: seq<State>, events: seq<Event>, i: nat)
    requires IsRun(run, events) && i < |run| && run[i].phase == Running
    ensures
      var s := if run[i].stop then run[i] else Do(run[i], StopCalled);
      && Can(s, SeeStop)
      && var t := DrainAll(Do(s, SeeStop));
      t.phase == Exited && t.channel == [] && Concat(t.flushed) == run[i].accepted == t.accepted
  {
    hide Concat, DrainAll;
    AuditConservation(run, events, i);
    var s := if run[i].stop then run[i] else Do(run[i], StopCalled);
    DrainFlushesAll(Do(s, SeeStop));
  }

  /** The auditor as the process holds it: the channel, and a batch buffer of fixed capacity that is reused. */
  class Auditor {
    var rows: seq<Row>
    var buffer: array<Row>
    var len: nat
    var batches: seq<seq<Row>>
    var stop: bool
    var phase: Phase
    ghost var accepted: seq<Row>
    ghost var dropped: seq<Row>

    ghost predicate Valid()
      reads this
    {
      buffer.Length == FLUSH_BATCH && len < FLUSH_BATCH
    }

    ghost function Value(): State
      requires Valid()
      reads this, buffer
    {
      State(rows, buffer[..len], batches, stop, phase, accepted, dropped)
    }

    constructor ()
      ensures Valid() && Value() == START && fresh(buffer)
    {
      rows, len, batches, stop, phase := [], 0, [], false, Running;
      buffer := new Row[FLUSH_BATCH](_ => Row(0, 0, "", "", "", "", ""));
      accepted, dropped := [], [];
    }

    method Enqueue(row: Row)
      requires Valid()
      modifies this`rows, this`accepted, this`dropped
      ensures Valid() && Value() == Do(old(Value()), Event.Enqueue(row))
    {
      if |rows| < RING_SIZE {
        rows := rows + [row];
        accepted := accepted + [row];
      } else {
        dropped := dropped + [row];
      }
    }

    method FlushPending()
      requires Valid()
      modifies this`len, this`batches
      ensures Valid() && buffer == old(buffer) && Value() == Flush(old(Value()))
    {
      if len == 0 {
        return;
      }
      batches := batches + [buffer[..len]];
      len := 0;
    }

    /** Takes a row from the channel; the append never outgrows the buffer. */
    method TakeRow()
      requires Valid() && rows != []
      modifies this`rows, this`len, this`batches, buffer
      ensures Valid() && buffer == old(buffer) && Value() == Take(old(Value()))
    {
      ghost var before := buffer[..len];
      buffer[len] := rows[0];
      rows := rows[1..];
      assert buffer[..len + 1] == before + [old(rows)[0]];
      if len + 1 >= FLUSH_BATCH {
        batches := batches + [buffer[..len + 1]];
        len := 0;
      } else {
        len := len + 1;
      }
    }

    /** The drain loop of the stopped consumer. */
    method Drain()
      requires Valid() && phase == Draining
      modifies this`rows, this`len, this`batches, this`phase, buffer
      ensures Valid() && buffer == old(buffer) && Value() == DrainAll(old(Value()))
    {
      while rows != []
        invariant Valid() && buffer == old(buffer) && phase == Draining
        invariant DrainAll(Value()) == DrainAll(old(Value()))
        decreases |rows|
      {
        TakeRow();
      }
      FlushPending();
      phase := Exited;
    }
  }
}
