/** Under every interleaving of the threads the receiver's schedule goes through a run of its own calls; so the
    times of its requests are those of such runs, and due holes are sent for. */
module ReceiverRequests {
  import opened BufferWindows
  import opened Contents
  import opened Rexmit
  import opened RexmitRuns
  import opened Receivers

  /** The time of the last call; time starts at 0. Resetting the schedule takes no time of its own. */
  function Clock(events: seq<Event>): int {
    if events == [] then 0 else events[|events| - 1].now
  }

  /** What a step calls. */
  function EventOf(s: State, a: Action, clock: int): seq<Event> {
    if !Enabled(s, a) then []
    else
      match a
      case Report(now) => [Event(now, AppendCall(s.data.missed))]
      case FilterSchedule(now) => [Event(now, FilterCall(s.toForget))]
      case ResetSchedule => [Event(clock, ResetCall)]
      case _ => []
  }

  function Events(maxSize: nat, rtime: nat, actions: seq<Action>): seq<Event> {
    if actions == [] then []
    else
      var before := actions[..|actions| - 1];
      var events := Events(maxSize, rtime, before);
      events + EventOf(Run(maxSize, rtime, before), actions[|actions| - 1], Clock(events))
  }

  /** What a run of calls leaves, and returns, depends only on the calls so far. */
  lemma {:induction false} BeforeOfSum(events: seq<Event>, more: seq<Event>, i: nat, rtime: nat)
    requires i <= |events|
    ensures Before(events + more, i, rtime) == Before(events, i, rtime)
  {
    if i > 0 { BeforeOfSum(events, more, i - 1, rtime); }
  }

  lemma StepEvents(s: State, a: Action, clock: int)
    requires Valid(s.buffer)
    ensures Do(s, a).rtime == s.rtime
    ensures EventOf(s, a, clock) == [] ==> Do(s, a).schedule == s.schedule
    ensures EventOf(s, a, clock) != [] ==>
              && |EventOf(s, a, clock)| == 1
              && Do(s, a).schedule == After(s.schedule, EventOf(s, a, clock)[0], s.rtime)
  {
    if !Enabled(s, a) {
    } else if a.WriteBuffer? {
      assert Do(s, a) == AfterWrite(s);
    } else if a.Play? {
      assert Do(s, a) == AfterPlay(s);
    } else if a.Register? {
      assert Do(s, a) == AfterRegister(s);
    }
  }

  lemma {:induction false} ScheduleRunsItsEvents(maxSize: nat, rtime: nat, actions: seq<Action>)
    ensures var s, events := Run(maxSize, rtime, actions), Events(maxSize, rtime, actions);
            s.rtime == rtime && s.schedule == Before(events, |events|, rtime)
  {
    if actions != [] {
      var before, a := actions[..|actions| - 1], actions[|actions| - 1];
      var s, events := Run(maxSize, rtime, before), Events(maxSize, rtime, before);
      ScheduleRunsItsEvents(maxSize, rtime, before);
      StepEvents(s, a, Clock(events));
      OneMoreEvent(events, EventOf(s, a, Clock(events)), rtime);
    }
  }

  lemma OneMoreEvent(events: seq<Event>, more: seq<Event>, rtime: nat)
    requires |more| <= 1
    ensures Before(events + more, |events + more|, rtime)
         == if more == [] then Before(events, |events|, rtime)
            else After(Before(events, |events|, rtime), more[0], rtime)
  {
    BeforeOfSum(events, more, |events|, rtime);
  }

  /** Under every interleaving: an id in the schedule is taken up for a request exactly if it is not to be
      forgotten and the filter comes at least `rtime` after the call that gave it its time. */
  lemma DueIdIsTaken(maxSize: nat, rtime: nat, actions: seq<Action>, now: int, id: nat) returns (i: nat)
    requires Enabled(Run(maxSize, rtime, actions), FilterSchedule(now))
    requires id in Run(maxSize, rtime, actions).schedule
    ensures var s, events := Run(maxSize, rtime, actions), Events(maxSize, rtime, actions);
            && i < |events| && SetBy(events, rtime, i, id) && Unrequested(events, rtime, i, |events|, id)
            && (id in Do(s, FilterSchedule(now)).toCheck <==> id !in s.toForget && now >= events[i].now + rtime)
  {
    var events := Events(maxSize, rtime, actions);
    ScheduleRunsItsEvents(maxSize, rtime, actions);
    i := EntryHasTime(events, rtime, |events|, id);
    TimeSince(events, rtime, i, |events|, id);
  }

  /** The clocks that the threads read do not go back. */
  ghost predicate ClockOn(maxSize: nat, rtime: nat, actions: seq<Action>) {
    actions == [] ||
    var before, a := actions[..|actions| - 1], actions[|actions| - 1];
    && ClockOn(maxSize, rtime, before)
    && (Enabled(Run(maxSize, rtime, before), a) ==>
          && (a.Report? ==> Clock(Events(maxSize, rtime, before)) <= a.now)
          && (a.FilterSchedule? ==> Clock(Events(maxSize, rtime, before)) <= a.now))
  }

  lemma MonotoneAppend(events: seq<Event>, more: seq<Event>)
    requires Monotone(events) && |more| <= 1
    requires events != [] && more != [] ==> Clock(events) <= more[0].now
    ensures Monotone(events + more)
  {
    var all := events + more;
    forall i, j | 0 <= i <= j < |all| ensures all[i].now <= all[j].now {
      if i < |events| { assert events[i].now <= events[|events| - 1].now; }
    }
  }

  lemma EventTime(s: State, a: Action, clock: int)
    requires Enabled(s, a) ==> (a.Report? ==> clock <= a.now) && (a.FilterSchedule? ==> clock <= a.now)
    ensures |EventOf(s, a, clock)| <= 1
    ensures EventOf(s, a, clock) != [] ==> clock <= EventOf(s, a, clock)[0].now
  {
  }

  lemma {:induction false} EventsAreMonotone(maxSize: nat, rtime: nat, actions: seq<Action>)
    requires ClockOn(maxSize, rtime, actions)
    ensures Monotone(Events(maxSize, rtime, actions))
  {
    if actions != [] {
      var before, a := actions[..|actions| - 1], actions[|actions| - 1];
      var s, events := Run(maxSize, rtime, before), Events(maxSize, rtime, before);
      EventsAreMonotone(maxSize, rtime, before);
      EventTime(s, a, Clock(events));
      MonotoneAppend(events, EventOf(s, a, Clock(events)));
    }
  }

  /** Under every interleaving in which the clock does not go back, an id is taken up no sooner than `rtime` after
      it was taken up before. */
  lemma TakesAreSpaced(maxSize: nat, rtime: nat, actions: seq<Action>, now: int, id: nat, i: nat)
    requires ClockOn(maxSize, rtime, actions) && Clock(Events(maxSize, rtime, actions)) <= now
    requires Enabled(Run(maxSize, rtime, actions), FilterSchedule(now))
    requires id in Do(Run(maxSize, rtime, actions), FilterSchedule(now)).toCheck
    requires i < |Events(maxSize, rtime, actions)| && id in Returned(Events(maxSize, rtime, actions), i, rtime)
    ensures now >= Events(maxSize, rtime, actions)[i].now + rtime
  {
    var events := Events(maxSize, rtime, actions);
    ScheduleRunsItsEvents(maxSize, rtime, actions);
    EventsAreMonotone(maxSize, rtime, actions);
    NotBefore(events, i, |events|, id, rtime);
  }

  lemma StepTaken(s: State, a: Action, id: nat)
    requires Valid(s.buffer) && id in s.toCheck && a != Check(id)
    ensures id in Do(s, a).toCheck
  {
    if !Enabled(s, a) {
    } else if a.WriteBuffer? {
      assert Do(s, a) == AfterWrite(s);
    } else if a.Play? {
      assert Do(s, a) == AfterPlay(s);
    } else if a.Register? {
      assert Do(s, a) == AfterRegister(s);
    }
  }

  lemma {:induction false} TakenStays(s: State, actions: seq<Action>, id: nat)
    requires Valid(s.buffer) && id in s.toCheck && Check(id) !in actions
    ensures id in RunFrom(s, actions).toCheck
  {
    if actions != [] {
      TakenStays(s, actions[..|actions| - 1], id);
      StepTaken(RunFrom(s, actions[..|actions| - 1]), actions[|actions| - 1], id);
    }
  }

  /** An id taken up is sent for, whatever the other threads do before its turn, if it is a hole of the window
      then; only an id that is no slot of the window is forgotten instead. */
  lemma TakenHoleIsSent(s: State, actions: seq<Action>, id: nat)
    requires Valid(s.buffer) && id in s.toCheck && Check(id) !in actions
    ensures var s1 := RunFrom(s, actions);
            var s2 := Do(s1, Check(id));
            && (id in Holes(s1.buffer) ==> id in s2.toSend && s2.toForget == s1.toForget)
            && (id in s2.toForget ==> id in s1.toForget || id !in s1.buffer.ids)
  {
    TakenStays(s, actions, id);
    BetweenEnds(RunFrom(s, actions).buffer);
  }

  // ---------- What is asked for ----------

  /** No step takes new ids from the schedule. */
  ghost predicate NotFiltered(s: State, actions: seq<Action>)
    requires Valid(s.buffer)
  {
    actions != [] ==>
      var before, a := actions[..|actions| - 1], actions[|actions| - 1];
      NotFiltered(s, before) && !(a.FilterSchedule? && Enabled(RunFrom(s, before), a))
  }

  predicate BetweenTheEnds(w: Window, id: nat) {
    w.ids != [] && w.ids[0] <= id <= w.ids[|w.ids| - 1]
  }

  /** The id had its turn, and then was between the ends of the window, or was not. */
  ghost predicate CheckedWhere(s: State, actions: seq<Action>, id: nat, inside: bool)
    requires Valid(s.buffer)
  {
    actions != [] &&
    var before, a := RunFrom(s, actions[..|actions| - 1]), actions[|actions| - 1];
    || CheckedWhere(s, actions[..|actions| - 1], id, inside)
    || (a == Check(id) && id in before.toCheck && BetweenTheEnds(before.buffer, id) == inside)
  }

  /** A turn of an id moves it, and it alone; no other step touches the ids. */
  lemma StepMovesIds(s: State, a: Action, id: nat)
    requires Valid(s.buffer) && !(a.FilterSchedule? && Enabled(s, a))
    ensures var s', turn := Do(s, a), a == Check(id) && id in s.toCheck;
            && (id in s'.toCheck <==> id in s.toCheck && !turn)
            && (id in s'.toSend <==> id in s.toSend || (turn && BetweenTheEnds(s.buffer, id)))
            && (id in s'.toForget <==> id in s.toForget || (turn && !BetweenTheEnds(s.buffer, id)))
  {
    if !Enabled(s, a) {
    } else if a.WriteBuffer? {
      assert Do(s, a) == AfterWrite(s);
    } else if a.Play? {
      assert Do(s, a) == AfterPlay(s);
    } else if a.Register? {
      assert Do(s, a) == AfterRegister(s);
    }
  }

  /** Each id taken is at one of three places. */
  ghost predicate Placed(s: State, taken: set<nat>, id: nat) {
    if id !in taken then id !in s.toCheck && id !in s.toSend && id !in s.toForget
    else if id in s.toCheck then id !in s.toSend && id !in s.toForget
    else id in s.toSend <==> id !in s.toForget
  }

  lemma {:induction false} IdsArePlaced(s: State, actions: seq<Action>, id: nat)
    requires Valid(s.buffer) && s.toSend == {} && s.toForget == {} && NotFiltered(s, actions)
    ensures var s' := RunFrom(s, actions);
            && Placed(s', s.toCheck, id)
            && (id in s'.toSend <==> CheckedWhere(s, actions, id, true))
            && (id in s'.toForget <==> CheckedWhere(s, actions, id, false))
  {
    if actions != [] {
      IdsArePlaced(s, actions[..|actions| - 1], id);
      StepMovesIds(RunFrom(s, actions[..|actions| - 1]), actions[|actions| - 1], id);
    }
  }

  /** From the step that takes due ids from the schedule to the next one, at every interleaving: those that have not
      had their turn, those to be asked for and those to be forgotten are together the ids taken, and no two of
      them share an id. An id is to be asked for exactly if at its turn it was between the ends of the window,
      also when its slot had been filled by then, and to be forgotten exactly if it was not. So when all have
      had their turn the request is for all that were between the ends. */
  lemma RequestIsExact(s: State, now: int, actions: seq<Action>)
    requires Valid(s.buffer) && Enabled(s, FilterSchedule(now))
    requires NotFiltered(Do(s, FilterSchedule(now)), actions)
    ensures var s0 := Do(s, FilterSchedule(now));
            var taken, s' := s0.toCheck, RunFrom(s0, actions);
            && s'.toCheck + s'.toSend + s'.toForget == taken
            && s'.toCheck !! s'.toSend !! s'.toForget
            && (forall id :: id in s'.toSend <==> CheckedWhere(s0, actions, id, true))
            && (forall id :: id in s'.toForget <==> CheckedWhere(s0, actions, id, false))
            && (s'.toCheck == {} ==> forall id :: id in taken ==>
                  (id in s'.toSend <==> !CheckedWhere(s0, actions, id, false)))
  {
    var s0 := Do(s, FilterSchedule(now));
    var s' := RunFrom(s0, actions);
    forall id: nat
      ensures Placed(s', s0.toCheck, id)
      ensures id in s'.toSend <==> CheckedWhere(s0, actions, id, true)
      ensures id in s'.toForget <==> CheckedWhere(s0, actions, id, false)
    {
      IdsArePlaced(s0, actions, id);
    }
    assert s'.toCheck + s'.toSend + s'.toForget == s0.toCheck by {
      forall id: nat ensures id in s'.toCheck + s'.toSend + s'.toForget <==> id in s0.toCheck {
        assert Placed(s', s0.toCheck, id);
      }
    }
    assert s'.toCheck !! s'.toSend !! s'.toForget by {
      forall id: nat
        ensures !(id in s'.toCheck && id in s'.toSend) && !(id in s'.toCheck + s'.toSend && id in s'.toForget)
      {
        assert Placed(s', s0.toCheck, id);
      }
    }
  }
}
