/** When ids are requested, over every run of the schedule. */
module RexmitRuns {
  import opened Rexmit

  datatype Call = AppendCall(ids: set<nat>) | FilterCall(forget: set<nat>) | ResetCall

  datatype Event = Event(now: int, call: Call)

  function After(m: Schedule, e: Event, rtime: nat): Schedule {
    match e.call
    case AppendCall(ids) => Append(m, ids, e.now + rtime)
    case FilterCall(forget) => Filter(m, forget, e.now, rtime).0
    case ResetCall => map[]
  }

  /** The schedule before event i of a run that starts empty. */
  function Before(events: seq<Event>, i: nat, rtime: nat): Schedule
    requires i <= |events|
  {
    if i == 0 then map[] else After(Before(events, i - 1, rtime), events[i - 1], rtime)
  }

  /** The ids returned, and so requested, by event i. */
  function Returned(events: seq<Event>, i: nat, rtime: nat): set<nat>
    requires i < |events|
  {
    match events[i].call
    case FilterCall(forget) => Filter(Before(events, i, rtime), forget, events[i].now, rtime).1
    case _ => {}
  }

  ghost predicate Monotone(events: seq<Event>) {
    forall i, j :: 0 <= i <= j < |events| ==> events[i].now <= events[j].now
  }

  /** After an event that leaves an id due no earlier than a time plus `rtime`, it stays so. */
  lemma {:induction false} NotBefore(events: seq<Event>, i: nat, k: nat, id: nat, rtime: nat)
    requires Monotone(events) && i < k <= |events|
    requires id in Before(events, i + 1, rtime) ==> Before(events, i + 1, rtime)[id] >= events[i].now + rtime
    ensures id in Before(events, k, rtime) ==> Before(events, k, rtime)[id] >= events[i].now + rtime
  {
    if i + 1 < k {
      NotBefore(events, i, k - 1, id, rtime);
      assert events[i].now <= events[k - 1].now;
    }
  }

  /** Two requests for the same id are at least `rtime` apart, whatever is forgotten, appended again
      or reset in between. */
  lemma RequestsAreSpaced(events: seq<Event>, rtime: nat, i: nat, j: nat, id: nat)
    requires Monotone(events) && i < j < |events|
    requires id in Returned(events, i, rtime) && id in Returned(events, j, rtime)
    ensures events[j].now >= events[i].now + rtime
  {
    NotBefore(events, i, j, id, rtime);
  }

  /** Event i put the id in the schedule, where it has been up to event j. */
  ghost predicate ScheduledBy(events: seq<Event>, rtime: nat, i: nat, j: nat, id: nat)
    requires i < j <= |events|
  {
    && events[i].call.AppendCall? && id in events[i].call.ids
    && id !in Before(events, i, rtime)
    && forall k :: i < k <= j ==> id in Before(events, k, rtime)
  }

  lemma {:induction false} EntryHasAppend(events: seq<Event>, rtime: nat, j: nat, id: nat) returns (i: nat)
    requires j <= |events| && id in Before(events, j, rtime)
    ensures i < j && ScheduledBy(events, rtime, i, j, id)
  {
    if id in Before(events, j - 1, rtime) {
      i := EntryHasAppend(events, rtime, j - 1, id);
    } else {
      i := j - 1;
    }
  }

  /** A request comes at least `rtime` after the append that put its id in the schedule. */
  lemma RequestFollowsAppend(events: seq<Event>, rtime: nat, j: nat, id: nat) returns (i: nat)
    requires Monotone(events) && j < |events| && id in Returned(events, j, rtime)
    ensures i < j && ScheduledBy(events, rtime, i, j, id) && events[j].now >= events[i].now + rtime
  {
    i := EntryHasAppend(events, rtime, j, id);
    NotBefore(events, i, j, id, rtime);
  }

  // ---------- Exactly when a scheduled id is requested ----------

  /** Event i gave the id its time: it was new, or it was requested and so put off. */
  ghost predicate SetBy(events: seq<Event>, rtime: nat, i: nat, id: nat)
    requires i < |events|
  {
    || (events[i].call.AppendCall? && id in events[i].call.ids && id !in Before(events, i, rtime))
    || id in Returned(events, i, rtime)
  }

  /** Since event i the id has been in the schedule, and was not requested. */
  ghost predicate Unrequested(events: seq<Event>, rtime: nat, i: nat, j: nat, id: nat)
    requires i < j <= |events|
  {
    && (forall k :: i < k <= j ==> id in Before(events, k, rtime))
    && (forall k :: i < k < j ==> id !in Returned(events, k, rtime))
  }

  lemma SetTime(events: seq<Event>, rtime: nat, i: nat, id: nat)
    requires i < |events| && SetBy(events, rtime, i, id)
    ensures id in Before(events, i + 1, rtime) && Before(events, i + 1, rtime)[id] == events[i].now + rtime
  {
    assert Before(events, i + 1, rtime) == After(Before(events, i, rtime), events[i], rtime);
  }

  /** An event that leaves an id in the schedule and does not return it leaves its time. */
  lemma TimeStays(events: seq<Event>, rtime: nat, k: nat, id: nat)
    requires k < |events| && id in Before(events, k, rtime) && id in Before(events, k + 1, rtime)
    requires id !in Returned(events, k, rtime)
    ensures Before(events, k + 1, rtime)[id] == Before(events, k, rtime)[id]
  {
    assert Before(events, k + 1, rtime) == After(Before(events, k, rtime), events[k], rtime);
  }

  lemma {:induction false} TimeSince(events: seq<Event>, rtime: nat, i: nat, j: nat, id: nat)
    requires i < j <= |events| && SetBy(events, rtime, i, id) && Unrequested(events, rtime, i, j, id)
    ensures id in Before(events, j, rtime) && Before(events, j, rtime)[id] == events[i].now + rtime
  {
    if i + 1 == j {
      SetTime(events, rtime, i, id);
    } else {
      TimeSince(events, rtime, i, j - 1, id);
      TimeStays(events, rtime, j - 1, id);
    }
  }

  /** Every id in the schedule got its time from some event, and has not been requested since. */
  lemma {:induction false} EntryHasTime(events: seq<Event>, rtime: nat, j: nat, id: nat) returns (i: nat)
    requires j <= |events| && id in Before(events, j, rtime)
    ensures i < j && SetBy(events, rtime, i, id) && Unrequested(events, rtime, i, j, id)
  {
    if id in Before(events, j - 1, rtime) && id !in Returned(events, j - 1, rtime) {
      i := EntryHasTime(events, rtime, j - 1, id);
    } else {
      i := j - 1;
    }
  }

  /** A filter requests an id that it finds in the schedule exactly if it does not forget it and comes at least
      `rtime` after the event that gave the id its time; whatever the clock does. */
  lemma RequestedExactlyWhenDue(events: seq<Event>, rtime: nat, j: nat, id: nat) returns (i: nat)
    requires j < |events| && events[j].call.FilterCall? && id in Before(events, j, rtime)
    ensures i < j && SetBy(events, rtime, i, id) && Unrequested(events, rtime, i, j, id)
    ensures id in Returned(events, j, rtime)
       <==> id !in events[j].call.forget && events[j].now >= events[i].now + rtime
  {
    i := EntryHasTime(events, rtime, j, id);
    TimeSince(events, rtime, i, j, id);
  }
}
