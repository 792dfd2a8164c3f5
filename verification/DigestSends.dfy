/**
 The durable table of sent digests, and the worker that looks a week up, sends its digest and
 records it, with crashes and failed writes in between.
 */
module DigestSends {
  import opened Text
  import opened DigestWeek

  type OrgId = string

  /** The unique key of a row; the scope is always the organisation. */
  datatype Key = Key(org: OrgId, periodStart: Time)

  /**
   The durable rows, what has been sent, and how each sending ended: recorded by a new row, its
   record failed, or the worker died first. `pending` is a digest sent and not yet recorded.
   */
  datatype State = State(rows: set<Key>, dispatched: multiset<Key>, inserted: multiset<Key>, failed: multiset<Key>,
                         crashed: multiset<Key>, pending: Option<Key>)

  /**
   Look: read the row and, without one, try to send. Record: write the row, which may report an
   error and may have landed all the same. Crash: the worker dies, and restarts on the durable rows.
   */
  datatype Event = Look(key: Key, readFails: bool, sends: bool) | Record(error: bool, landed: bool) | Crash

  const START: State := State({}, multiset{}, multiset{}, multiset{}, multiset{}, None)

  /** One event of the single leader; an event that cannot happen now changes nothing. */
  function Do(s: State, e: Event): State {
    match e
    case Look(key, readFails, sends) =>
      if s.pending.Some? || readFails || key in s.rows || !sends then s
      else s.(dispatched := s.dispatched + multiset{key}, pending := Some(key))
    case Record(error, landed) =>
      if s.pending.None? then s
      else
        var key := s.pending.value;
        if error then
          s.(rows := if landed then s.rows + {key} else s.rows, failed := s.failed + multiset{key}, pending := None)
        else
          s.(rows := s.rows + {key}, pending := None,
             inserted := if key in s.rows then s.inserted else s.inserted + multiset{key})
    case Crash =>
      if s.pending.None? then s else s.(crashed := s.crashed + multiset{s.pending.value}, pending := None)
  }

  function After(events: seq<Event>): State {
    if events == [] then START else Do(After(events[..|events| - 1]), events[|events| - 1])
  }

  function Pending(s: State): multiset<Key> {
    if s.pending.Some? then multiset{s.pending.value} else multiset{}
  }

  predicate InvAt(s: State, k: Key) {
    && s.dispatched[k] == s.inserted[k] + s.failed[k] + s.crashed[k] + Pending(s)[k]
    && (s.pending == Some(k) ==> k !in s.rows)
    && s.inserted[k] <= 1
    && (s.inserted[k] > 0 ==> k in s.rows)
  }

  ghost predicate Inv(s: State) {
    forall k :: InvAt(s, k)
  }

  lemma PendingCount(s: State, k: Key)
    ensures Pending(s)[k] == if s.pending == Some(k) then 1 else 0
  {
  }

  lemma StepKeepsInvAt(s: State, e: Event, k: Key)
    requires InvAt(s, k)
    ensures InvAt(Do(s, e), k)
  {
    hide Pending;
    PendingCount(s, k);
    PendingCount(Do(s, e), k);
    match e
    case Look(key, readFails, sends) =>
    case Record(error, landed) =>
    case Crash =>
  }

  lemma StepKeepsInv(s: State, e: Event)
    requires Inv(s)
    ensures Inv(Do(s, e))
  {
    hide InvAt, Do;
    forall k ensures InvAt(Do(s, e), k) { StepKeepsInvAt(s, e, k); }
  }

  lemma {:induction false} RunKeepsInv(events: seq<Event>)
    ensures Inv(After(events))
  {
    hide Inv, Do;
    if events == [] {
      assert Inv(START) by { StartInv(); }
    } else {
      RunKeepsInv(events[..|events| - 1]);
      StepKeepsInv(After(events[..|events| - 1]), events[|events| - 1]);
    }
  }

  lemma StartInv()
    ensures Inv(START)
  {
  }

  /** Every sending ends as the one new row, as a failed record, in a crash, or is still unrecorded. */
  lemma AtMostOncePlusAccidents(events: seq<Event>, k: Key)
    ensures
      var s := After(events);
      && s.dispatched[k] == s.inserted[k] + s.failed[k] + s.crashed[k] + Pending(s)[k]
      && s.inserted[k] <= 1
      && s.dispatched[k] <= 1 + s.failed[k] + s.crashed[k]
  {
    hide After;
    RunKeepsInv(events);
    assert InvAt(After(events), k);
    assert Pending(After(events))[k] > 0 ==> After(events).inserted[k] == 0;
  }

  /** Once the row stands, nothing sends that digest again or takes the row away. */
  lemma {:induction false} RowIsFinal(events: seq<Event>, more: seq<Event>, k: Key)
    requires k in After(events).rows
    ensures k in After(events + more).rows
    ensures After(events + more).dispatched[k] == After(events).dispatched[k]
  {
    hide After;
    if more == [] {
      assert events + more == events;
    } else {
      var n := |more| - 1;
      RowIsFinal(events, more[..n], k);
      AfterAppend(events + more[..n], more[n]);
      assert events + more == events + more[..n] + [more[n]];
    }
  }

  lemma AfterAppend(events: seq<Event>, e: Event)
    ensures After(events + [e]) == Do(After(events), e)
  {
    assert (events + [e])[..|events|] == events;
  }

  function Crashes(k: Key, n: nat): seq<Event> {
    if n == 0 then [] else Crashes(k, n - 1) + [Look(k, false, true)] + [Crash]
  }

  /** The bound is reached: n crashes after sending do cost n extra digests. */
  lemma BoundIsReached(k: Key, n: nat)
    ensures
      var s := After(Crashes(k, n) + [Look(k, false, true)] + [Record(false, true)]);
      s.dispatched[k] == n + 1 && s.crashed[k] == n && s.failed[k] == 0 && s.inserted[k] == 1
  {
    hide After;
    var before := Crashes(k, n);
    OnlyCrashes(k, n);
    AfterAppend(before, Look(k, false, true));
    AfterAppend(before + [Look(k, false, true)], Record(false, true));
  }

  lemma CrashCycle(s: State, k: Key)
    requires k !in s.rows && s.pending == None
    ensures Do(Do(s, Look(k, false, true)), Crash) ==
      s.(dispatched := s.dispatched + multiset{k}, crashed := s.crashed + multiset{k})
  {
  }

  lemma {:induction false} OnlyCrashes(k: Key, n: nat)
    ensures
      var s := After(Crashes(k, n));
      s.dispatched[k] == n == s.crashed[k] && s.failed[k] == 0 == s.inserted[k] && s.rows == {} && s.pending == None
  {
    hide Do;
    if n == 0 {
      assert After([]) == START;
    } else {
      hide After;
      OnlyCrashes(k, n - 1);
      AfterAppend(Crashes(k, n - 1), Look(k, false, true));
      AfterAppend(Crashes(k, n - 1) + [Look(k, false, true)], Crash);
      CrashCycle(After(Crashes(k, n - 1)), k);
    }
  }

  /** What a record leaves is what the next look-up reads: a second turn after a recorded one changes nothing. */
  lemma RecordedIsRead(events: seq<Event>, k: Key, landed: bool, readFails: bool, sends: bool)
    requires After(events).pending.None?
    ensures
      var turn := events + [Look(k, false, true)] + [Record(false, landed)];
      k in After(turn).rows && After(turn + [Look(k, readFails, sends)]) == After(turn)
  {
    hide After;
    var look := events + [Look(k, false, true)];
    var turn := look + [Record(false, landed)];
    AfterAppend(events, Look(k, false, true));
    AfterAppend(look, Record(false, landed));
    AfterAppend(turn, Look(k, readFails, sends));
  }

  // ---- The worker ----

  /** What the outside world does to one organisation's turn. */
  datatype Luck = Luck(readFails: bool, sends: bool, error: bool, landed: bool, stopsBefore: bool, stopsAfter: bool)

  function TurnEvents(org: OrgId, period: Time, l: Luck): seq<Event> {
    [Look(Key(org, period), l.readFails, l.sends), Record(l.error, l.landed)]
  }

  /** The events of the turns from the i-th organisation on, until the worker is told to stop. */
  function EventsFrom(orgs: seq<OrgId>, period: Time, luck: seq<Luck>, i: nat): seq<Event>
    requires |luck| == |orgs|
    decreases |orgs| - i
  {
    if i >= |orgs| || luck[i].stopsBefore then []
    else
      TurnEvents(orgs[i], period, luck[i]) + (if luck[i].stopsAfter then [] else EventsFrom(orgs, period, luck, i + 1))
  }

  /** The worker gets as far as organisation k, starting with organisation i. */
  ghost predicate Reaches(luck: seq<Luck>, i: nat, k: nat) {
    i <= k < |luck| && forall j | i <= j <= k :: !luck[j].stopsBefore && (j < k ==> !luck[j].stopsAfter)
  }

  ghost predicate Distinct(orgs: seq<OrgId>) {
    forall i, j | 0 <= i < j < |orgs| :: orgs[i] != orgs[j]
  }

  /** What a turn does: nothing, or one mail, and a row if the record lands. */
  lemma TurnEffect(events: seq<Event>, org: OrgId, period: Time, l: Luck)
    requires After(events).pending.None?
    ensures
      var (s, t, key) := (After(events), After(events + TurnEvents(org, period, l)), Key(org, period));
      var sent := !l.readFails && l.sends && key !in s.rows;
      && t.pending.None?
      && t.dispatched == (if sent then s.dispatched + multiset{key} else s.dispatched)
      && t.rows == (if sent && (!l.error || l.landed) then s.rows + {key} else s.rows)
  {
    hide After;
    var key := Key(org, period);
    AfterAppend(events, Look(key, l.readFails, l.sends));
    AfterAppend(events + [Look(key, l.readFails, l.sends)], Record(l.error, l.landed));
    assert events + TurnEvents(org, period, l) ==
           events + [Look(key, l.readFails, l.sends)] + [Record(l.error, l.landed)];
  }

  /** The turns from the i-th organisation on, seen by organisation k: served if it is reached, else left alone. */
  lemma {:induction false} TurnsServe(events: seq<Event>, orgs: seq<OrgId>, period: Time, luck: seq<Luck>, i: nat,
                                      k: nat)
    requires |luck| == |orgs| && Distinct(orgs) && After(events).pending.None? && k < |orgs|
    ensures
      var (s, t) := (After(events), After(events + EventsFrom(orgs, period, luck, i)));
      var (key, l) := (Key(orgs[k], period), luck[k]);
      var sent := Reaches(luck, i, k) && !l.readFails && l.sends && key !in s.rows;
      && t.dispatched[key] == s.dispatched[key] + (if sent then 1 else 0)
      && (key in t.rows <==> key in s.rows || (sent && (!l.error || l.landed)))
    decreases |orgs| - i
  {
    hide After, TurnEvents;
    if i >= |orgs| || luck[i].stopsBefore {
      assert events + [] == events;
    } else {
      var turn := TurnEvents(orgs[i], period, luck[i]);
      TurnEffect(events, orgs[i], period, luck[i]);
      if luck[i].stopsAfter {
        assert turn + [] == turn;
      } else {
        Regroup(events, turn, EventsFrom(orgs, period, luck, i + 1), []);
        TurnsServe(events + turn, orgs, period, luck, i + 1, k);
      }
    }
  }

  /** A key that is none of theirs is left alone. */
  lemma {:induction false} TurnsLeaveOthers(events: seq<Event>, orgs: seq<OrgId>, period: Time, luck: seq<Luck>, i: nat,
                                            key: Key)
    requires |luck| == |orgs| && After(events).pending.None?
    requires key.periodStart != period || key.org !in orgs
    ensures
      var (s, t) := (After(events), After(events + EventsFrom(orgs, period, luck, i)));
      t.dispatched[key] == s.dispatched[key] && (key in t.rows <==> key in s.rows)
    decreases |orgs| - i
  {
    hide After, TurnEvents;
    if i >= |orgs| || luck[i].stopsBefore {
      assert events + [] == events;
    } else {
      var turn := TurnEvents(orgs[i], period, luck[i]);
      TurnEffect(events, orgs[i], period, luck[i]);
      if luck[i].stopsAfter {
        assert turn + [] == turn;
      } else {
        Regroup(events, turn, EventsFrom(orgs, period, luck, i + 1), []);
        TurnsLeaveOthers(events + turn, orgs, period, luck, i + 1, key);
      }
    }
  }

  class DigestWorker {
    var rows: set<Key>
    /** The digests handed to the mail relay. */
    var mailed: multiset<Key>
    ghost var history: seq<Event>

    ghost predicate Valid()
      reads this
    {
      After(history).rows == rows && After(history).dispatched == mailed && After(history).pending.None?
    }

    constructor ()
      ensures Valid() && rows == {} && history == []
    {
      rows, mailed, history := {}, multiset{}, [];
    }

    method GetLastDigestSend(key: Key, fails: bool) returns (row: Option<bool>)
      ensures row == if fails then None else Some(key in rows)
    {
      row := if fails then None else Some(key in rows);
    }

    method UpsertDigestSend(key: Key, error: bool, landed: bool) returns (inserted: bool)
      modifies this`rows
      ensures rows == if error && !landed then old(rows) else old(rows) + {key}
      ensures inserted <==> !error && key !in old(rows)
    {
      inserted := !error && key !in rows;
      if !error || landed {
        rows := rows + {key};
      }
    }

    /** One organisation's turn: skip it if its row stands, else send and record. */
    method Turn(org: OrgId, period: Time, luck: Luck) returns (sent: nat, skipped: nat)
      requires Valid()
      modifies this
      ensures Valid() && history == old(history) + TurnEvents(org, period, luck)
      ensures sent == |After(history).inserted| - |After(old(history)).inserted|
      ensures skipped == if !luck.readFails && !luck.sends && Key(org, period) !in old(rows) then 1 else 0
    {
      hide After;
      var key := Key(org, period);
      ghost var was := history;
      ghost var look, record := Look(key, luck.readFails, luck.sends), Record(luck.error, luck.landed);
      history := was + [look] + [record];
      AfterAppend(was, look);
      AfterAppend(was + [look], record);
      assert history == was + TurnEvents(org, period, luck);
      sent, skipped := 0, 0;
      var existing := GetLastDigestSend(key, luck.readFails);
      if existing.None? || existing.value {
        return;
      }
      if luck.sends {
        mailed := mailed + multiset{key};
        var inserted := UpsertDigestSend(key, luck.error, luck.landed);
        if inserted {
          sent := 1;
        }
      } else {
        skipped := 1;
      }
    }

    /** One tick: outside the send hour nothing happens, inside it every organisation gets a turn. */
    method Check(sendDay: int, sendHour: int, now: Time, orgs: seq<OrgId>, luck: seq<Luck>) returns (sent: nat)
      requires Valid() && |luck| == |orgs|
      modifies this
      ensures Valid()
      ensures history == old(history) +
        if GateOpen(sendDay, sendHour, now) then EventsFrom(orgs, Period(now).0, luck, 0) else []
      ensures sent == |After(history).inserted| - |After(old(history)).inserted|
      ensures GateOpen(sendDay, sendHour, now) && Distinct(orgs) ==>
        forall k | 0 <= k < |orgs| ::
          var (key, l) := (Key(orgs[k], WeekStart(now) - WEEK), luck[k]);
          var served := Reaches(luck, 0, k) && !l.readFails && l.sends && key !in old(rows);
          && mailed[key] == old(mailed)[key] + (if served then 1 else 0)
          && (key in rows <==> key in old(rows) || (served && (!l.error || l.landed)))
      ensures forall key: Key ::
        !GateOpen(sendDay, sendHour, now) || key.periodStart != WeekStart(now) - WEEK || key.org !in orgs ==>
          mailed[key] == old(mailed)[key] && (key in rows <==> key in old(rows))
    {
      hide After, WeekStart, Weekday, HourOf, EventsFrom;
      ghost var was := history;
      sent := CheckAll(sendDay, sendHour, now, orgs, luck);
      if GateOpen(sendDay, sendHour, now) {
        var period := WeekStart(now) - WEEK;
        forall k | 0 <= k < |orgs| && Distinct(orgs)
          ensures
            var (key, l) := (Key(orgs[k], period), luck[k]);
            var served := Reaches(luck, 0, k) && !l.readFails && l.sends && key !in old(rows);
            && mailed[key] == old(mailed)[key] + (if served then 1 else 0)
            && (key in rows <==> key in old(rows) || (served && (!l.error || l.landed)))
        {
          TurnsServe(was, orgs, period, luck, 0, k);
        }
        forall key: Key | key.periodStart != period || key.org !in orgs
          ensures mailed[key] == old(mailed)[key] && (key in rows <==> key in old(rows))
        {
          TurnsLeaveOthers(was, orgs, period, luck, 0, key);
        }
      } else {
        assert was + [] == was;
      }
    }

    /** The loop of the tick. */
    method CheckAll(sendDay: int, sendHour: int, now: Time, orgs: seq<OrgId>, luck: seq<Luck>) returns (sent: nat)
      requires Valid() && |luck| == |orgs|
      modifies this
      ensures Valid()
      ensures history == old(history) +
        if GateOpen(sendDay, sendHour, now) then EventsFrom(orgs, Period(now).0, luck, 0) else []
      ensures sent == |After(history).inserted| - |After(old(history)).inserted|
    {
      hide After, WeekStart, Weekday, HourOf;
      sent := 0;
      if Weekday(now) != sendDay {
        return;
      }
      if HourOf(now) != sendHour {
        return;
      }
      var periodStart := WeekStart(now) - WEEK;
      ghost var all := history + EventsFrom(orgs, periodStart, luck, 0);
      for i := 0 to |orgs|
        invariant Valid() && history + EventsFrom(orgs, periodStart, luck, i) == all
        invariant sent == |After(history).inserted| - |After(old(history)).inserted|
      {
        if luck[i].stopsBefore {
          return;
        }
        ghost var was := history;
        var s, _ := Turn(orgs[i], periodStart, luck[i]);
        sent := sent + s;
        ghost var turn := TurnEvents(orgs[i], periodStart, luck[i]);
        Regroup(was, turn, EventsFrom(orgs, periodStart, luck, i + 1), []);
        assert turn + [] == turn;
        if luck[i].stopsAfter {
          return;
        }
      }
    }
  }
}
