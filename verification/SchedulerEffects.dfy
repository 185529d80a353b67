/**
 What scheduling an event does, and what a check of the scheduler makes of the handlers: each runs once, in
 ascending order, on the state the one before left.
 */
module SchedulerEffects {
  import opened Machine
  import opened Emulator
  import opened RunLoop
  import opened Dispatch

  function Least(a: int, b: int): int { if a <= b then a else b }

  /** An event comes due a given number of cycles from now, at least one, or in the last cycle there is. */
  lemma ScheduleEffect(s: State, delay: U32, e: Event)
    ensures var at: U32 := Least(s.count + if delay == 0 then 1 else delay, 0xFFFF_FFFF);
      DoSchedule(s, delay, e) == s.(events := s.events[e := at], active := s.active + {e}, next := Least(s.next, at))
  {
  }

  /** The same from the due cycle being dispatched, without the least of one. */
  lemma ScheduleFromDueEffect(s: State, delay: U32, e: Event)
    ensures var at: U32 := Least(s.due + delay, 0xFFFF_FFFF);
      DoScheduleFromDue(s, delay, e)
      == s.(events := s.events[e := at], active := s.active + {e}, next := Least(s.next, at))
  {
  }

  /** The actions that guest code and handlers take are these two, making an immediate event pending, and the reads and
      writes of timer registers. */
  lemma ActionEffect(s: State, delay: U32, e: Event, i: ImmEvent, c: Slot, mask: bv16, value: bv16)
    ensures Act(s, Schedule(delay, e)) == DoSchedule(s, delay, e)
    ensures Act(s, ScheduleFromDue(delay, e)) == DoScheduleFromDue(s, delay, e)
    ensures Act(s, ScheduleImm(i)) == s.(imm := s.imm + {i})
    ensures Act(s, SetCntL(c, mask, value)) == DoSetCntL(s, c, mask, value)
    ensures Act(s, SetCntH(c, mask, value)) == DoSetCntH(s, c, mask, value) && Act(s, GetCntL(c)) == DoGetCntL(s, c)
  {
  }

  // ---- immediate events ----

  function AllActions(plan: ImmPlan, order: seq<ImmEvent>): seq<Action> {
    if order == [] then [] else AllActions(plan, order[..|order| - 1]) + plan[order[|order| - 1]]
  }

  predicate Ascending(order: seq<ImmEvent>) { forall i, j :: 0 <= i < j < |order| ==> order[i] < order[j] }

  lemma {:induction false} ActAllConcat(s: State, a: seq<Action>, b: seq<Action>)
    ensures ActAll(s, a + b) == ActAll(ActAll(s, a), b)
    decreases |b|
  {
    if b == [] {
      assert a + b == a;
    } else {
      var init := b[..|b| - 1];
      assert (a + b)[..|a + b| - 1] == a + init;
      ActAllConcat(s, a, init);
    }
  }

  lemma {:induction false} ImmSweepIsActions(s: State, pending: set<ImmEvent>, plan: ImmPlan, n: nat,
                                             order: seq<ImmEvent>)
    requires n <= IMM_COUNT && Ascending(order) && forall e :: e in order <==> e in pending && e < n
    ensures ImmSweep(s, pending, plan, n) == ActAll(s, AllActions(plan, order))
    decreases n
  {
    if n == 0 {
      FirstIsIn(order);
    } else if n - 1 in pending {
      LastIs(order, n - 1);
      var init := order[..|order| - 1];
      ImmSweepIsActions(s, pending, plan, n - 1, init);
      ActAllConcat(s, AllActions(plan, init), plan[n - 1]);
    } else {
      assert forall e :: e in order ==> e != n - 1;
      ImmSweepIsActions(s, pending, plan, n - 1, order);
    }
  }

  lemma FirstIsIn(order: seq<ImmEvent>)
    ensures order != [] ==> order[0] in order
  {
  }

  /** The largest of ascending numbers is the last. */
  lemma LastIs(order: seq<ImmEvent>, last: int)
    requires Ascending(order) && last in order && forall e :: e in order ==> e <= last
    ensures order != [] && order[|order| - 1] == last
    ensures var init := order[..|order| - 1]; Ascending(init) && forall e :: e in init <==> e in order && e < last
  {
    var init := order[..|order| - 1];
    var k :| 0 <= k < |order| && order[k] == last;
    assert order[|order| - 1] in order;
    forall e | e in order && e < last
      ensures e in init
    {
      var j :| 0 <= j < |order| && order[j] == e;
      assert init[j] == e;
    }
  }

  /** The pending immediate events are taken, and the actions of their handlers follow each other in ascending order;
      what they make pending in turn stays pending. */
  lemma ImmediatesRunInOrder(s: State, plan: ImmPlan, order: seq<ImmEvent>)
    requires Ascending(order) && forall e :: e in order <==> e in s.imm
    ensures AfterImm(s, plan) == ActAll(s.(imm := {}), AllActions(plan, order))
  {
    ImmSweepIsActions(s.(imm := {}), s.imm, plan, IMM_COUNT, order);
  }

  // ---- timed events ----

  /** What the handler of an event does: the event is disarmed and its due cycle published, a timer overflows, and
      then its actions follow. */
  function Handled(s: State, e: Event, plan: Plan): State {
    var s1: State := s.(active := s.active - {e}, due := s.events[e]);
    ActAll(if 3 <= e < 11 then Overflow(s1, e - 3) else s1, plan[e])
  }

  function AllHandled(s: State, ran: seq<Event>, plan: Plan): State
    decreases |ran|
  {
    if ran == [] then s else Handled(AllHandled(s, ran[..|ran| - 1], plan), ran[|ran| - 1], plan)
  }

  /** The states agree on everything but the next event cycle, which no handler can see. */
  ghost predicate SameButNext(s: State, t: State) { t == s.(next := t.next) }

  lemma ActSameButNext(s: State, t: State, a: Action)
    requires SameButNext(s, t)
    ensures SameButNext(Act(s, a), Act(t, a))
  {
    match a
    case SetCntH(c, mask, value) => WriteSameButNext(s, t, c, mask, value);
    case GetCntL(c) => ReadSameButNext(s, t, c);
    case _ => OtherSameButNext(s, t, a);
  }

  lemma WriteSameButNext(s: State, t: State, c: Slot, mask: bv16, value: bv16)
    requires SameButNext(s, t)
    ensures SameButNext(DoSetCntH(s, c, mask, value), DoSetCntH(t, c, mask, value))
  {
  }

  lemma ReadSameButNext(s: State, t: State, c: Slot)
    requires SameButNext(s, t)
    ensures SameButNext(DoGetCntL(s, c), DoGetCntL(t, c))
  {
  }

  lemma OtherSameButNext(s: State, t: State, a: Action)
    requires SameButNext(s, t) && !a.SetCntH? && !a.GetCntL?
    ensures SameButNext(Act(s, a), Act(t, a))
  {
  }

  lemma {:induction false} ActAllSameButNext(s: State, t: State, actions: seq<Action>)
    requires SameButNext(s, t)
    ensures SameButNext(ActAll(s, actions), ActAll(t, actions))
    decreases |actions|
  {
    if actions != [] {
      var init := actions[..|actions| - 1];
      ActAllSameButNext(s, t, init);
      ActSameButNext(ActAll(s, init), ActAll(t, init), actions[|actions| - 1]);
    }
  }

  lemma {:induction false} OverflowSameButNext(s: State, t: State, c: Slot)
    requires SameButNext(s, t)
    ensures SameButNext(Overflow(s, c), Overflow(t, c))
    decreases TIMER_COUNT - c
  {
    if s.channels[c].Start() {
      var s1, t1 := Reloaded(s, c), Reloaded(t, c);
      assert SameButNext(s1, t1);
      if c + 2 < TIMER_COUNT && s.channels[c].CountUpBit() {
        assert SameButNext(Ticked(s1, c), Ticked(t1, c));
        if Ticked(s1, c).channels[c].current == 0 {
          OverflowSameButNext(Ticked(s1, c), Ticked(t1, c), c + 2);
        }
      }
    }
  }

  lemma HandledSameButNext(s: State, t: State, e: Event, plan: Plan)
    requires SameButNext(s, t)
    ensures SameButNext(Handled(s, e, plan), Handled(t, e, plan))
  {
    var s1: State := s.(active := s.active - {e}, due := s.events[e]);
    var t1: State := t.(active := t.active - {e}, due := t.events[e]);
    if 3 <= e < 11 {
      OverflowSameButNext(s1, t1, e - 3);
      ActAllSameButNext(Overflow(s1, e - 3), Overflow(t1, e - 3), plan[e]);
    } else {
      ActAllSameButNext(s1, t1, plan[e]);
    }
  }

  lemma {:induction false} SweepIsHandlers(s: State, armed: set<Event>, now: U32, plan: Plan, n: nat)
    requires n <= EVENT_COUNT
    ensures var w := Sweep(s, armed, now, plan, n); SameButNext(AllHandled(s, w.ran, plan), w.state)
  {
    if n > 0 {
      SweepIsHandlers(s, armed, now, plan, n - 1);
      var w := Sweep(s, armed, now, plan, n - 1);
      SweepStep(s, armed, now, plan, n - 1);
      if n - 1 in armed && w.state.events[n - 1] <= now {
        assert (w.ran + [n - 1])[..|w.ran|] == w.ran;
        HandledSameButNext(AllHandled(s, w.ran, plan), w.state, n - 1, plan);
        assert Visit(w, n - 1, now, plan) == Swept(Handled(w.state, n - 1, plan), w.ran + [n - 1]);
      }
    }
  }

  /** The state a sweep leaves is the one that the handlers of the events it ran leave, one after the other. With the
      order in which they run and which of them do, this is all there is to a sweep but the next event cycle. */
  lemma SweepRunsHandlers(s: State, plan: Plan)
    ensures var w := SweepAll(s, plan); SameButNext(AllHandled(s, w.ran, plan), w.state)
  {
    var s1 := s.(next := U32_MAX);
    SweepIsHandlers(s1, s.active, s.count, plan, EVENT_COUNT);
    AllHandledSameButNext(s, s1, SweepAll(s, plan).ran, plan);
  }

  lemma {:induction false} AllHandledSameButNext(s: State, t: State, ran: seq<Event>, plan: Plan)
    requires SameButNext(s, t)
    ensures SameButNext(AllHandled(s, ran, plan), AllHandled(t, ran, plan))
    decreases |ran|
  {
    if ran != [] {
      var init := ran[..|ran| - 1];
      AllHandledSameButNext(s, t, init, plan);
      HandledSameButNext(AllHandled(s, init, plan), AllHandled(t, init, plan), ran[|ran| - 1], plan);
    }
  }

  // ---- the clock starting over ----

  /** When nothing is late, the clock starts over at zero, the due cycles of active events, the next event cycle and the
      deadlines of timers move back with it, a deadline that has passed to zero, and nothing else changes. */
  lemma RebaseMovesBack(s: State)
    requires s.next >= s.count && forall e :: e in s.active ==> s.events[e] >= s.count
    ensures var r := Rebase(s);
      && r.count == 0 && r.base == s.base + s.count && r.next == s.next - s.count
      && (forall e: Event :: r.events[e] == if e in s.active then s.events[e] - s.count else s.events[e])
      && (forall c: Slot :: r.channels[c] == s.channels[c].(scheduled := MovedBack(s.channels[c].scheduled, s.count)))
      && r.active == s.active && r.imm == s.imm && r.due == s.due && r.irqs == s.irqs
  {
  }

  function MovedBack(at: U32, back: U32): U32 { if at < back then 0 else at - back }

  /** A check runs nothing timed while the next event is ahead, and starts the clock over exactly after a sweep past
      cycle 0x7FFF_FFFF. */
  lemma CheckGates(s: State, immPlan: ImmPlan, plan: Plan)
    ensures var s1, r := AfterImm(s, immPlan), Check(s, immPlan, plan);
      if s1.count < s1.next then r == Swept(s1, [])
      else
        && r.ran == SweepAll(s1, plan).ran && r.state.Now() == s1.Now()
        && (if s1.count > 0x7FFF_FFFF then r.state.count == 0 else r.state == SweepAll(s1, plan).state)
  {
    var s1 := AfterImm(s, immPlan);
    SweepKeepsClock(s1.(next := U32_MAX), s1.active, s1.count, plan, EVENT_COUNT);
  }
}
