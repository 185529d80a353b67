/**
 What a check of the scheduler runs: nothing while something is due behind a shut gate, each event at
 most once, in ascending order, and exactly the due events when handlers keep to their own event.
 */
module Dispatch {
  import opened Machine
  import opened Emulator
  import opened RunLoop

  /** The next event cycle is a lower bound on the active events that are not in `pending`. */
  ghost predicate Bounding(s: State, pending: set<Event>) {
    forall e :: e in s.active && e !in pending ==> s.next <= s.events[e]
  }

  /** The bound that the gate tests is a lower bound whatever handlers schedule. */
  lemma {:induction false} ActAllKeepsLowerBound(s: State, actions: seq<Action>, pending: set<Event>)
    requires Bounding(s, pending)
    ensures Bounding(ActAll(s, actions), pending)
    decreases |actions|
  {
    if actions != [] {
      var init := actions[..|actions| - 1];
      ActAllKeepsLowerBound(s, init, pending);
      ActKeepsLowerBound(ActAll(s, init), actions[|actions| - 1], pending);
    }
  }

  lemma ActKeepsLowerBound(s: State, a: Action, pending: set<Event>)
    requires Bounding(s, pending)
    ensures Bounding(Act(s, a), pending)
  {
  }

  lemma {:induction false} OverflowKeepsLowerBound(s: State, c: Slot, pending: set<Event>)
    requires Bounding(s, pending)
    ensures Bounding(Overflow(s, c), pending)
    decreases TIMER_COUNT - c
  {
    if s.channels[c].Start() {
      var s1 := Reloaded(s, c);
      assert Bounding(s1, pending);
      if c + 2 < TIMER_COUNT && s.channels[c].CountUpBit() && Ticked(s1, c).channels[c].current == 0 {
        OverflowKeepsLowerBound(Ticked(s1, c), c + 2, pending);
      }
    }
  }

  lemma {:induction false} SweepKeepsLowerBound(s: State, armed: set<Event>, now: U32, plan: Plan, n: nat)
    requires n <= EVENT_COUNT && s.active <= armed
    ensures Bounding(Sweep(s, armed, now, plan, n).state, From(armed, n))
  {
    if n == 0 {
      assert From(armed, 0) == armed;
    } else {
      SweepKeepsLowerBound(s, armed, now, plan, n - 1);
      var w := Sweep(s, armed, now, plan, n - 1).state;
      if n - 1 in armed {
        assert From(armed, n - 1) == From(armed, n) + {n - 1};
        if w.events[n - 1] <= now {
          var s1 := Dispatched(w, n - 1);
          assert Bounding(s1, From(armed, n));
          if IsTimer(n - 1) {
            OverflowKeepsLowerBound(s1, n - 1 - FIRST_TIMER, From(armed, n));
          }
          ActAllKeepsLowerBound(AtHandler(w, n - 1), plan[n - 1], From(armed, n));
        }
      } else {
        assert From(armed, n - 1) == From(armed, n);
      }
    }
  }

  /** With any handlers at all, a check leaves the next event cycle no later than any active event, as
      long as a rebase does not find it in the past. */
  lemma CheckKeepsLowerBound(s: State, immPlan: ImmPlan, plan: Plan)
    requires NextIsLowerBound(s)
    requires var s1 := AfterImm(s, immPlan);
      GateOpen(s1) && s1.count > REBASE_AT ==> SweepAll(s1, plan).state.next >= s1.count
    ensures NextIsLowerBound(Check(s, immPlan, plan).state)
  {
    ImmSweepKeepsLowerBound(s.(imm := {}), s.imm, immPlan, IMM_COUNT);
    var s1 := AfterImm(s, immPlan);
    if GateOpen(s1) {
      SweepKeepsLowerBound(s1.(next := U32_MAX), s1.active, s1.count, plan, EVENT_COUNT);
      assert From(s1.active, EVENT_COUNT) == {};
      var w := SweepAll(s1, plan).state;
      SweepKeepsClock(s1.(next := U32_MAX), s1.active, s1.count, plan, EVENT_COUNT);
      if s1.count > REBASE_AT && w.active != {} {
        RebaseExact(w);
      }
    }
  }

  lemma {:induction false} SweepKeepsClock(s: State, armed: set<Event>, now: U32, plan: Plan, n: nat)
    requires n <= EVENT_COUNT
    ensures Sweep(s, armed, now, plan, n).state.count == s.count && Sweep(s, armed, now, plan, n).state.base == s.base
  {
    if n > 0 {
      SweepKeepsClock(s, armed, now, plan, n - 1);
    }
  }

  lemma {:induction false} ImmSweepKeepsLowerBound(s: State, pending: set<ImmEvent>, plan: ImmPlan, n: nat)
    requires n <= IMM_COUNT && Bounding(s, {})
    ensures Bounding(ImmSweep(s, pending, plan, n), {})
  {
    if n > 0 {
      ImmSweepKeepsLowerBound(s, pending, plan, n - 1);
      if n - 1 in pending {
        ActAllKeepsLowerBound(ImmSweep(s, pending, plan, n - 1), plan[n - 1], {});
      }
    }
  }

  // ---- which events run ----

  /** An action that concerns no event but `e`. */
  predicate Own(a: Action, e: Event) {
    match a
    case Schedule(_, x) => x == e
    case ScheduleFromDue(_, x) => x == e
    case SetCntH(c, _, _) => TimerEvent(c) == e
    case _ => true
  }

  /** Handlers that keep to their own event: their actions concern nothing else, and no timer passes its
      overflow on. */
  ghost predicate KeepToThemselves(plan: Plan) { forall e: Event :: forall a :: a in plan[e] ==> Own(a, e) }

  /** A channel that, when it overflows, ticks itself and may pass the overflow on. */
  predicate Cascades(k: Channel, c: Slot) { c + 2 < TIMER_COUNT && k.Start() && k.CountUpBit() }

  predicate NoCascades(s: State) { forall c: Slot :: !Cascades(s.channels[c], c) }

  predicate Elsewhere(s: State, r: State, e: Event) {
    && (forall x: Event :: x != e ==> r.events[x] == s.events[x] && (x in r.active <==> x in s.active))
    && (forall c: Slot :: TimerEvent(c) != e ==> r.channels[c].cntH == s.channels[c].cntH)
  }

  lemma {:induction false} OwnActionsElsewhere(s: State, actions: seq<Action>, e: Event)
    requires forall a :: a in actions ==> Own(a, e)
    ensures Elsewhere(s, ActAll(s, actions), e)
    decreases |actions|
  {
    if actions != [] {
      var init := actions[..|actions| - 1];
      OwnActionsElsewhere(s, init, e);
      OwnActionElsewhere(ActAll(s, init), actions[|actions| - 1], e);
    }
  }

  lemma OwnActionElsewhere(s: State, a: Action, e: Event)
    requires Own(a, e)
    ensures Elsewhere(s, Act(s, a), e)
  {
    if a.SetCntH? {
      OwnWriteElsewhere(s, a.slot, a.maskH, a.valueH);
    }
  }

  lemma ChannelElsewhere(s: State, c: Slot, k: Channel)
    ensures Elsewhere(s, s.(channels := s.channels[c := k]), TimerEvent(c))
  {
  }

  lemma ScheduleElsewhere(s: State, delay: U32, e: Event)
    ensures Elsewhere(s, DoSchedule(s, delay, e), e)
  {
  }

  lemma ElsewhereBoth(s: State, r: State, t: State, e: Event)
    requires Elsewhere(s, r, e) && Elsewhere(r, t, e)
    ensures Elsewhere(s, t, e)
  {
  }

  lemma OwnWriteElsewhere(s: State, c: Slot, mask: bv16, value: bv16)
    ensures Elsewhere(s, DoSetCntH(s, c, mask, value), TimerEvent(c))
  {
    var r := Reconfigured(s.channels[c], c, mask, value);
    if Updates(s.channels[c], c, mask, value) && r.Running(c) {
      var remaining := ShiftLeft(TIME_OVERFLOW - r.current, r.shift);
      var k := r.(scheduled := WrappingAdd(s.count, remaining));
      var s1: State := s.(channels := s.channels[c := k]);
      ChannelElsewhere(s, c, k);
      ScheduleElsewhere(s1, remaining, TimerEvent(c));
      ElsewhereBoth(s, s1, DoSchedule(s1, remaining, TimerEvent(c)), TimerEvent(c));
    } else {
      ChannelElsewhere(s, c, r);
    }
  }

  /** The events below `n` of `armed` that are due at `now`, in ascending order. */
  function DueBelow(s: State, armed: set<Event>, now: U32, n: nat): seq<Event>
    requires n <= EVENT_COUNT
  {
    if n == 0 then [] else
    DueBelow(s, armed, now, n - 1) + if n - 1 in armed && s.events[n - 1] <= now then [n - 1] else []
  }

  lemma {:induction false} DueBelowIsAscending(s: State, armed: set<Event>, now: U32, n: nat)
    requires n <= EVENT_COUNT
    ensures var due := DueBelow(s, armed, now, n);
      && (forall i, j :: 0 <= i < j < |due| ==> due[i] < due[j] < n)
      && (forall i :: 0 <= i < |due| ==> due[i] < n)
      && (forall e :: e in due <==> e in armed && e < n && s.events[e] <= now)
  {
    if n > 0 {
      DueBelowIsAscending(s, armed, now, n - 1);
    }
  }

  predicate Reschedules(a: Action, e: Event) {
    match a
    case Schedule(_, x) => x == e
    case ScheduleFromDue(_, x) => x == e
    case _ => false
  }

  predicate Rearms(actions: seq<Action>, e: Event) { exists n :: 0 <= n < |actions| && Reschedules(actions[n], e) }

  lemma {:induction false} RearmsIsActive(s: State, actions: seq<Action>, e: Event)
    requires Rearms(actions, e)
    ensures e in ActAll(s, actions).active
    decreases |actions|
  {
    var init := actions[..|actions| - 1];
    if !Reschedules(actions[|actions| - 1], e) {
      var n :| 0 <= n < |actions| && Reschedules(actions[n], e);
      assert init[n] == actions[n];
      RearmsIsActive(s, init, e);
    }
  }

  /** Running event `e` in state `s` arms it again: its handler schedules it, or it is a running timer. */
  predicate Recurs(s: State, plan: Plan, e: Event) {
    Rearms(plan[e], e) || (IsTimer(e) && s.channels[e - FIRST_TIMER].Running(e - FIRST_TIMER))
  }

  lemma RunningTimerRearms(s: State, c: Slot)
    requires s.channels[c].Running(c) && !Cascades(s.channels[c], c)
    ensures TimerEvent(c) in Overflow(s, c).active
  {
  }

  lemma RecursIsActive(s: State, plan: Plan, e: Event)
    requires Recurs(s, plan, e) && (IsTimer(e) ==> !Cascades(s.channels[e - FIRST_TIMER], e - FIRST_TIMER))
    ensures e in ActAll(AtHandler(s, e), plan[e]).active
  {
    if Rearms(plan[e], e) {
      RearmsIsActive(AtHandler(s, e), plan[e], e);
    } else {
      RunningTimerRearms(Dispatched(s, e), e - FIRST_TIMER);
    }
  }

  lemma OwnOverflowElsewhere(s: State, c: Slot)
    requires !Cascades(s.channels[c], c)
    ensures Elsewhere(s, Overflow(s, c), TimerEvent(c))
  {
  }

  lemma VisitElsewhere(w: Swept, e: Event, now: U32, plan: Plan)
    requires forall a :: a in plan[e] ==> Own(a, e)
    requires IsTimer(e) ==> !Cascades(w.state.channels[e - FIRST_TIMER], e - FIRST_TIMER)
    ensures Elsewhere(w.state, Visit(w, e, now, plan).state, e)
    ensures w.state.events[e] <= now && Recurs(w.state, plan, e) ==> e in Visit(w, e, now, plan).state.active
    ensures w.state.events[e] > now ==> Visit(w, e, now, plan).state.events == w.state.events
                                        && Visit(w, e, now, plan).state.active == w.state.active
  {
    if w.state.events[e] <= now {
      var s1 := Dispatched(w.state, e);
      if IsTimer(e) {
        OwnOverflowElsewhere(s1, e - FIRST_TIMER);
      }
      OwnActionsElsewhere(AtHandler(w.state, e), plan[e], e);
      if Recurs(w.state, plan, e) {
        RecursIsActive(w.state, plan, e);
      }
    }
  }

  predicate WasDue(s: State, armed: set<Event>, now: U32, e: Event) { e in armed && s.events[e] <= now }

  /** After the events below `n` have been visited: those that were due have run, in order, and nothing
      else has moved. */
  ghost predicate RanDue(s: State, w: Swept, armed: set<Event>, now: U32, plan: Plan, n: nat)
    requires n <= EVENT_COUNT
  {
    && w.ran == DueBelow(s, armed, now, n)
    && (forall e: Event :: !(e < n && WasDue(s, armed, now, e)) ==>
          w.state.events[e] == s.events[e] && (e in w.state.active <==> e in s.active))
    && (forall e: Event :: e < n && WasDue(s, armed, now, e) && Recurs(s, plan, e) ==> e in w.state.active)
    && (forall c: Slot :: TimerEvent(c) >= n ==> w.state.channels[c].cntH == s.channels[c].cntH)
  }

  lemma VisitRanDue(s: State, w: Swept, armed: set<Event>, now: U32, plan: Plan, n: Event)
    requires KeepToThemselves(plan) && NoCascades(s) && n in armed && RanDue(s, w, armed, now, plan, n)
    ensures RanDue(s, Visit(w, n, now, plan), armed, now, plan, n + 1)
  {
    assert forall c: Slot :: TimerEvent(c) == n ==> w.state.channels[c].cntH == s.channels[c].cntH;
    VisitElsewhere(w, n, now, plan);
  }

  lemma SkipRanDue(s: State, w: Swept, armed: set<Event>, now: U32, plan: Plan, n: Event)
    requires n !in armed && RanDue(s, w, armed, now, plan, n)
    ensures RanDue(s, w, armed, now, plan, n + 1)
  {
  }

  lemma SweepStepRanDue(s: State, armed: set<Event>, now: U32, plan: Plan, n: Event)
    requires KeepToThemselves(plan) && NoCascades(s)
    requires RanDue(s, Sweep(s, armed, now, plan, n), armed, now, plan, n)
    ensures RanDue(s, Sweep(s, armed, now, plan, n + 1), armed, now, plan, n + 1)
  {
    var w := Sweep(s, armed, now, plan, n);
    SweepStep(s, armed, now, plan, n);
    if n in armed {
      VisitRanDue(s, w, armed, now, plan, n);
    } else {
      SkipRanDue(s, w, armed, now, plan, n);
    }
  }

  /** When handlers keep to their own event, a sweep runs every event that was due when it started
      exactly once, in ascending order, and disarms no other event; an event whose handler schedules it
      again, or that belongs to a running timer, is armed afterwards. */
  lemma {:induction false} SweepRunsDueOnce(s: State, armed: set<Event>, now: U32, plan: Plan, n: nat)
    requires n <= EVENT_COUNT && KeepToThemselves(plan) && NoCascades(s)
    ensures RanDue(s, Sweep(s, armed, now, plan, n), armed, now, plan, n)
  {
    if n > 0 {
      SweepRunsDueOnce(s, armed, now, plan, n - 1);
      SweepStepRanDue(s, armed, now, plan, n - 1);
    }
  }

  ghost predicate InOrder(ran: seq<Event>, armed: set<Event>, n: nat) {
    && (forall i, j :: 0 <= i < j < |ran| ==> ran[i] < ran[j])
    && (forall i :: 0 <= i < |ran| ==> ran[i] < n && ran[i] in armed)
  }

  /** Whatever the handlers do, no event runs twice in one sweep or out of ascending order, and only
      events that were armed when it started run. */
  lemma {:induction false} SweepRunsInOrder(s: State, armed: set<Event>, now: U32, plan: Plan, n: nat)
    requires n <= EVENT_COUNT
    ensures InOrder(Sweep(s, armed, now, plan, n).ran, armed, n)
  {
    if n > 0 {
      SweepRunsInOrder(s, armed, now, plan, n - 1);
      var w := Sweep(s, armed, now, plan, n - 1);
      if n - 1 in armed && w.state.events[n - 1] <= now {
        assert InOrder(w.ran + [n - 1], armed, n);
        assert Sweep(s, armed, now, plan, n).ran == w.ran + [n - 1];
      } else {
        assert Sweep(s, armed, now, plan, n).ran == w.ran;
      }
    }
  }

  lemma AfterImmKeepsLowerBound(s: State, immPlan: ImmPlan)
    requires NextIsLowerBound(s)
    ensures NextIsLowerBound(AfterImm(s, immPlan))
  {
    ImmSweepKeepsLowerBound(s.(imm := {}), s.imm, immPlan, IMM_COUNT);
  }

  /** A shut gate hides nothing: no active event is due. A check that passes runs exactly the active
      events that are due, when handlers keep to their own event. No event is lost that was not due, or
      that its handler schedules again, or that belongs to a running timer. */
  lemma CheckRunsExactlyTheDue(s: State, immPlan: ImmPlan, plan: Plan)
    requires NextIsLowerBound(s) && KeepToThemselves(plan) && NoCascades(AfterImm(s, immPlan))
    ensures var s1 := AfterImm(s, immPlan); var ran := Check(s, immPlan, plan).ran;
      && (forall e: Event :: e in ran <==> e in s1.active && s1.events[e] <= s1.count)
      && (forall i, j :: 0 <= i < j < |ran| ==> ran[i] < ran[j])
      && (forall e :: e in s1.active && (s1.events[e] <= s1.count ==> Recurs(s1, plan, e)) ==>
            e in Check(s, immPlan, plan).state.active)
  {
    var s1 := AfterImm(s, immPlan);
    AfterImmKeepsLowerBound(s, immPlan);
    if GateOpen(s1) {
      var s2 := s1.(next := U32_MAX);
      SweepRunsDueOnce(s2, s1.active, s1.count, plan, EVENT_COUNT);
      DueBelowIsAscending(s2, s1.active, s1.count, EVENT_COUNT);
      assert forall e: Event :: Recurs(s1, plan, e) == Recurs(s2, plan, e);
    }
  }
}
