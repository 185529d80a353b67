/**
 The drift-free grid: however late events are dispatched, a running timer that nobody reprograms
 overflows at exact multiples of its period, across rebases of the clock.
 */
module TimerGrid {
  import opened Machine
  import opened Emulator
  import opened RunLoop

  /** Timer `c` was due first at unwrapped time `first`, and has sent `sent` interrupts before that. */
  datatype Grid = Grid(c: Slot, first: int, period: U32, irq: bool, sent: nat)
  {
    /** The due time after `k` overflows. */
    function Point(k: nat): int { if k == 0 then first else Point(k - 1) + period }
  }

  /** The timer has overflowed `k` times since; its next overflow is due `k` periods after the first. */
  ghost predicate OnGrid(s: State, g: Grid, k: nat) {
    && s.channels[g.c].Running(g.c) && s.channels[g.c].Period() == g.period && s.channels[g.c].IrqEnable() == g.irq
    && NoCascadeInto(s, g.c)
    && TimerEvent(g.c) in s.active && s.DueAt(TimerEvent(g.c)) == g.Point(k)
    && s.irqs[g.c] == g.sent + if g.irq then k else 0
  }

  predicate NoCascadeInto(s: State, c: Slot) { c >= 2 ==> !s.channels[c - 2].CountUpBit() }

  lemma {:induction false} PointIsMultiple(g: Grid, k: nat)
    ensures g.Point(k) == g.first + k * g.period
  {
    if k > 0 {
      PointIsMultiple(g, k - 1);
    }
  }

  /** Guest code and handlers leave the timer alone when they do not write its registers and do not make
      the channel below it count up. */
  predicate Leaves(a: Action, c: Slot) {
    match a
    case SetCntL(x, _, _) => x != c
    case SetCntH(x, mask, value) => x != c && (x + 2 == c ==> mask & 4 == 0 || value & 4 == 0)
    case _ => true
  }

  predicate AllLeave(actions: seq<Action>, c: Slot) { forall a :: a in actions ==> Leaves(a, c) }

  predicate SliceLeaves(sl: Slice, c: Slot) {
    && AllLeave(sl.guest, c)
    && (forall i: ImmEvent :: AllLeave(sl.imm[i], c))
    && PlanLeaves(sl.plan, c)
  }

  predicate PlanLeaves(plan: Plan, c: Slot) { forall e: Event :: AllLeave(plan[e], c) }

  lemma CountUpStaysClear(k: Channel, c: Slot, mask: bv16, value: bv16)
    requires !k.CountUpBit() && (mask & 4 == 0 || value & 4 == 0)
    ensures !Reconfigured(k, c, mask, value).CountUpBit()
  {
  }

  lemma WriteOnGrid(s: State, x: Slot, mask: bv16, value: bv16, g: Grid, k: nat)
    requires OnGrid(s, g, k) && x != g.c && (x + 2 == g.c ==> mask & 4 == 0 || value & 4 == 0)
    ensures OnGrid(DoSetCntH(s, x, mask, value), g, k)
  {
    var r := DoSetCntH(s, x, mask, value);
    assert r.channels[g.c] == s.channels[g.c] && r.events[TimerEvent(g.c)] == s.events[TimerEvent(g.c)];
    if x + 2 == g.c {
      CountUpStaysClear(s.channels[x], x, mask, value);
    }
  }

  lemma ActOnGrid(s: State, a: Action, h: Event, g: Grid, k: nat)
    requires OnGrid(s, g, k) && ActionOk(s, a, h) && Leaves(a, g.c)
    ensures OnGrid(Act(s, a), g, k)
  {
    if a.SetCntH? {
      WriteOnGrid(s, a.slot, a.maskH, a.valueH, g, k);
    }
  }

  lemma {:induction false} ActAllOnGrid(s: State, actions: seq<Action>, h: Event, g: Grid, k: nat)
    requires OnGrid(s, g, k) && ActionsOk(s, actions, h) && AllLeave(actions, g.c)
    ensures OnGrid(ActAll(s, actions), g, k)
    decreases |actions|
  {
    if actions != [] {
      var init := actions[..|actions| - 1];
      assert forall n :: 0 <= n <= |init| ==> init[..n] == actions[..n];
      ActAllOnGrid(s, init, h, g, k);
      ActOnGrid(ActAll(s, init), actions[|actions| - 1], h, g, k);
    }
  }

  lemma ReloadedOtherOnGrid(s: State, x: Slot, g: Grid, k: nat)
    requires OnGrid(s, g, k) && x != g.c
    ensures OnGrid(Reloaded(s, x), g, k)
  {
    var r := Reloaded(s, x);
    assert r.channels[g.c] == s.channels[g.c];
    assert r.channels[x].cntH == s.channels[x].cntH;
    assert r.events[TimerEvent(g.c)] == s.events[TimerEvent(g.c)];
  }

  lemma TickedOnGrid(s: State, x: Slot, g: Grid, k: nat)
    requires OnGrid(s, g, k)
    ensures OnGrid(Ticked(s, x), g, k)
  {
    var r := Ticked(s, x);
    assert r.channels[g.c] == s.channels[g.c].(current := r.channels[g.c].current);
    assert r.channels[x].cntH == s.channels[x].cntH;
  }

  lemma {:induction false} OtherOverflowOnGrid(s: State, x: Slot, g: Grid, k: nat)
    requires OnGrid(s, g, k) && x != g.c
    ensures OnGrid(Overflow(s, x), g, k)
    decreases TIMER_COUNT - x
  {
    if s.channels[x].Start() {
      ReloadedOtherOnGrid(s, x, g, k);
      var s1 := Reloaded(s, x);
      if x + 2 < TIMER_COUNT && s.channels[x].CountUpBit() {
        TickedOnGrid(s1, x, g, k);
        if Ticked(s1, x).channels[x].current == 0 {
          OtherOverflowOnGrid(Ticked(s1, x), x + 2, g, k);
        }
      }
    }
  }

  lemma OwnReloadOnGrid(s: State, g: Grid, k: nat)
    requires OnGrid(s, g, k) && s.events[TimerEvent(g.c)] <= CLOCK_LIMIT
    ensures OnGrid(Reloaded(Dispatched(s, TimerEvent(g.c)), g.c), g, k + 1)
  {
    var s1 := Dispatched(s, TimerEvent(g.c));
    var r := Reloaded(s1, g.c);
    var ch := s.channels[g.c];
    assert ch.Period() == g.period <= 0x400_0000;
    assert r.events[TimerEvent(g.c)] == s.events[TimerEvent(g.c)] + g.period;
    assert r.channels[g.c].cntH == ch.cntH && r.channels[g.c].Period() == g.period;
    assert g.Point(k + 1) == g.Point(k) + g.period;
  }

  /** Dispatching the timer's own event moves it to the next point of its grid. */
  lemma OwnOverflowOnGrid(s: State, g: Grid, k: nat)
    requires OnGrid(s, g, k) && s.events[TimerEvent(g.c)] <= CLOCK_LIMIT
    ensures OnGrid(AtHandler(s, TimerEvent(g.c)), g, k + 1)
  {
    var s1 := Dispatched(s, TimerEvent(g.c));
    OwnReloadOnGrid(s, g, k);
    var r := Reloaded(s1, g.c);
    if g.c + 2 < TIMER_COUNT && s1.channels[g.c].CountUpBit() {
      TickedOnGrid(r, g.c, g, k + 1);
      if Ticked(r, g.c).channels[g.c].current == 0 {
        OtherOverflowOnGrid(Ticked(r, g.c), g.c + 2, g, k + 1);
      }
    }
  }

  lemma DispatchedOtherOnGrid(s: State, e: Event, g: Grid, k: nat)
    requires OnGrid(s, g, k) && e != TimerEvent(g.c)
    ensures OnGrid(AtHandler(s, e), g, k)
  {
    assert OnGrid(Dispatched(s, e), g, k);
    if IsTimer(e) {
      OtherOverflowOnGrid(Dispatched(s, e), e - FIRST_TIMER, g, k);
    }
  }

  function Times(ran: seq<Event>, e: Event): nat { multiset(ran)[e] }

  lemma TimesOfConcat(a: seq<Event>, b: seq<Event>, e: Event)
    ensures Times(a + b, e) == Times(a, e) + Times(b, e)
  {
    assert multiset(a + b) == multiset(a) + multiset(b);
  }

  ghost predicate SweptOnGrid(w: Swept, g: Grid, k: nat) { OnGrid(w.state, g, k + Times(w.ran, TimerEvent(g.c))) }

  lemma SkipOnGrid(w: Swept, e: Event, plan: Plan, g: Grid, k: nat)
    requires SweptOnGrid(w, g, k) && w.state.events[e] > w.state.count
    ensures SweptOnGrid(Visit(w, e, w.state.count, plan), g, k)
  {
    var r := Visit(w, e, w.state.count, plan).state;
    assert r == w.state.(next := r.next);
  }

  lemma RunOnGrid(w: Swept, e: Event, plan: Plan, b: Beat, g: Grid, k: nat)
    requires b.Ok() && SweptOnGrid(w, g, k) && w.state.events[e] <= w.state.count <= CLOCK_LIMIT
    requires HandlerOk(w.state, e, plan, b) && AllLeave(plan[e], g.c)
    ensures SweptOnGrid(Visit(w, e, w.state.count, plan), g, k)
  {
    DispatchedOnGrid(w, e, g, k);
    HandlerOnGrid(w.state, e, plan, b, g, k + Times(w.ran + [e], TimerEvent(g.c)));
    VisitRuns(w, e, plan);
  }

  lemma VisitRuns(w: Swept, e: Event, plan: Plan)
    requires w.state.events[e] <= w.state.count
    ensures Visit(w, e, w.state.count, plan) == Swept(ActAll(AtHandler(w.state, e), plan[e]), w.ran + [e])
  {
  }

  lemma VisitOnGrid(w: Swept, e: Event, plan: Plan, b: Beat, g: Grid, k: nat)
    requires b.Ok() && SweptOnGrid(w, g, k) && w.state.count <= CLOCK_LIMIT
    requires w.state.events[e] <= w.state.count ==> HandlerOk(w.state, e, plan, b)
    requires AllLeave(plan[e], g.c)
    ensures SweptOnGrid(Visit(w, e, w.state.count, plan), g, k)
  {
    if w.state.events[e] <= w.state.count {
      RunOnGrid(w, e, plan, b, g, k);
    } else {
      SkipOnGrid(w, e, plan, g, k);
    }
  }

  lemma DispatchedOnGrid(w: Swept, e: Event, g: Grid, k: nat)
    requires SweptOnGrid(w, g, k) && w.state.events[e] <= w.state.count <= CLOCK_LIMIT
    ensures OnGrid(AtHandler(w.state, e), g, k + Times(w.ran + [e], TimerEvent(g.c)))
  {
    TimesOfConcat(w.ran, [e], TimerEvent(g.c));
    if e == TimerEvent(g.c) {
      OwnOverflowOnGrid(w.state, g, k + Times(w.ran, e));
    } else {
      DispatchedOtherOnGrid(w.state, e, g, k + Times(w.ran, TimerEvent(g.c)));
    }
  }

  lemma HandlerOnGrid(s: State, e: Event, plan: Plan, b: Beat, g: Grid, k: nat)
    requires b.Ok() && OnGrid(AtHandler(s, e), g, k) && AllLeave(plan[e], g.c) && HandlerOk(s, e, plan, b)
    ensures OnGrid(ActAll(AtHandler(s, e), plan[e]), g, k)
  {
    var s1 := AtHandler(s, e);
    if e == b.h {
      BeatOnGrid(s1, plan[e], b, g, k);
    } else {
      ActAllOnGrid(s1, plan[e], b.h, g, k);
    }
  }

  lemma BeatOnGrid(s: State, actions: seq<Action>, b: Beat, g: Grid, k: nat)
    requires b.Ok() && OnGrid(s, g, k) && AllLeave(actions, g.c)
    requires Rebeats(actions, b) && ActionsOk(s, actions[..|actions| - 1], b.h)
    ensures OnGrid(ActAll(s, actions), g, k)
  {
    ActAllOnGrid(s, actions[..|actions| - 1], b.h, g, k);
  }

  lemma {:induction false} SweepOnGrid(s: State, armed: set<Event>, plan: Plan, b: Beat, g: Grid, k: nat, n: nat)
    requires n <= EVENT_COUNT && b.Ok() && Sweeping(s, s, armed, b) && SweepOk(s, armed, plan, b)
    requires OnGrid(s, g, k) && PlanLeaves(plan, g.c)
    ensures var w := Sweep(s, armed, s.count, plan, n); SweptOnGrid(w, g, k)
  {
    if n == 0 {
      assert Times([], TimerEvent(g.c)) == 0;
    } else {
      SweepOnGrid(s, armed, plan, b, g, k, n - 1);
      SweepFine(s, armed, plan, b, n - 1);
      SweepStepOnGrid(s, armed, plan, b, g, k, n - 1);
    }
  }

  lemma SweepStepOnGrid(s: State, armed: set<Event>, plan: Plan, b: Beat, g: Grid, k: nat, e: Event)
    requires b.Ok() && SweepOk(s, armed, plan, b)
    requires Sweeping(s, Sweep(s, armed, s.count, plan, e).state, From(armed, e), b)
    requires PlanLeaves(plan, g.c)
    requires var w := Sweep(s, armed, s.count, plan, e); SweptOnGrid(w, g, k)
    ensures var w := Sweep(s, armed, s.count, plan, e + 1); SweptOnGrid(w, g, k)
  {
    var w := Sweep(s, armed, s.count, plan, e);
    if e in armed {
      assert w.state.events[e] <= s.count ==> HandlerOk(w.state, e, plan, b);
      VisitOnGrid(w, e, plan, b, g, k);
    }
  }

  lemma {:induction false} ImmSweepOnGrid(s: State, pending: set<ImmEvent>, plan: ImmPlan, h: Event, g: Grid, k: nat,
                                          n: nat)
    requires n <= IMM_COUNT && ImmOk(s, pending, plan, h)
    requires OnGrid(s, g, k) && forall i: ImmEvent :: AllLeave(plan[i], g.c)
    ensures OnGrid(ImmSweep(s, pending, plan, n), g, k)
  {
    if n > 0 {
      ImmSweepOnGrid(s, pending, plan, h, g, k, n - 1);
      if n - 1 in pending {
        ActAllOnGrid(ImmSweep(s, pending, plan, n - 1), plan[n - 1], h, g, k);
      }
    }
  }

  lemma RebaseKeepsChannel(s: State, c: Slot)
    ensures var r := Rebase(s);
      r.channels[c] == s.channels[c].(scheduled := r.channels[c].scheduled) && r.irqs == s.irqs && r.active == s.active
  {
  }

  /** All of the grid that a rebase could disturb but the due time. */
  predicate SameTimer(s: State, r: State, c: Slot) {
    && r.channels[c] == s.channels[c].(scheduled := r.channels[c].scheduled)
    && (c >= 2 ==> r.channels[c - 2] == s.channels[c - 2].(scheduled := r.channels[c - 2].scheduled))
    && r.irqs == s.irqs && r.active == s.active && r.DueAt(TimerEvent(c)) == s.DueAt(TimerEvent(c))
  }

  lemma SameTimerOnGrid(s: State, r: State, g: Grid, k: nat)
    requires OnGrid(s, g, k) && SameTimer(s, r, g.c)
    ensures OnGrid(r, g, k)
  {
  }

  lemma RebaseOnGrid(s: State, g: Grid, k: nat)
    requires OnGrid(s, g, k) && s.events[TimerEvent(g.c)] >= s.count
    ensures OnGrid(Rebase(s), g, k)
  {
    RebasedAt(s, TimerEvent(g.c));
    RebaseKeepsChannel(s, g.c);
    if g.c >= 2 {
      RebaseKeepsChannel(s, g.c - 2);
    }
    SameTimerOnGrid(s, Rebase(s), g, k);
  }

  lemma AdvanceOnGrid(hle: bool, s: State, sl: Slice, g: Grid, k: nat)
    requires OnGrid(s, g, k)
    ensures OnGrid(Advance(hle, s, sl), g, k)
  {
    assert Advance(hle, s, sl) == s.(count := Advance(hle, s, sl).count);
  }

  lemma AfterImmOnGrid(s: State, plan: ImmPlan, h: Event, g: Grid, k: nat)
    requires ImmOk(s.(imm := {}), s.imm, plan, h)
    requires OnGrid(s, g, k) && forall i: ImmEvent :: AllLeave(plan[i], g.c)
    ensures OnGrid(AfterImm(s, plan), g, k)
  {
    assert OnGrid(s.(imm := {}), g, k);
    ImmSweepOnGrid(s.(imm := {}), s.imm, plan, h, g, k, IMM_COUNT);
  }

  lemma AtGateOnGrid(hle: bool, s: State, sl: Slice, b: Beat, g: Grid, k: nat)
    requires b.Ok() && SliceAllowed(hle, s, sl, b) && SliceLeaves(sl, g.c) && OnGrid(s, g, k)
    ensures OnGrid(AtGate(hle, s, sl), g, k)
  {
    ActAllOnGrid(s, sl.guest, b.h, g, k);
    AdvanceOnGrid(hle, ActAll(s, sl.guest), sl, g, k);
    AfterImmOnGrid(AtCheck(hle, s, sl), sl.imm, b.h, g, k);
  }

  lemma SweepAllOnGrid(s: State, plan: Plan, b: Beat, g: Grid, k: nat)
    requires b.Ok() && Fine(s, {}, -1) && Beating(s, b.h, REBASE_AT + b.longest)
    requires SweepOk(s.(next := U32_MAX), s.active, plan, b)
    requires OnGrid(s, g, k) && PlanLeaves(plan, g.c)
    ensures var w := SweepAll(s, plan); SweptOnGrid(w, g, k)
  {
    var s1 := s.(next := U32_MAX);
    forall c: Slot
      ensures InSync(s1, c)
    {
      assert InSync(s, c);
    }
    assert OnGrid(s1, g, k);
    SweepOnGrid(s1, s.active, plan, b, g, k, EVENT_COUNT);
  }

  lemma CheckOnGrid(s: State, plan: Plan, b: Beat, g: Grid, k: nat)
    requires b.Ok() && Fine(s, {}, -1) && Beating(s, b.h, REBASE_AT + b.longest)
    requires SweepOk(s.(next := U32_MAX), s.active, plan, b)
    requires s.count > REBASE_AT ==> SweepAll(s, plan).state.next >= s.count
    requires OnGrid(s, g, k) && PlanLeaves(plan, g.c)
    ensures var w := SweepAll(s, plan);
      SweptOnGrid(if s.count > REBASE_AT then Swept(Rebase(w.state), w.ran) else w, g, k)
  {
    SweepAllFine(s, plan, b);
    SweepAllOnGrid(s, plan, b, g, k);
    var w := SweepAll(s, plan);
    if s.count > REBASE_AT {
      RebaseOnGrid(w.state, g, k + Times(w.ran, TimerEvent(g.c)));
    }
  }

  lemma IterateOnGrid(hle: bool, s: State, sl: Slice, b: Beat, g: Grid, k: nat)
    requires b.Ok() && Settled(s, b) && SliceOk(hle, s, sl, b) && SliceLeaves(sl, g.c)
    requires OnGrid(s, g, k)
    ensures SweptOnGrid(Iterate(hle, s, sl), g, k)
  {
    AtGateFine(hle, s, sl, b);
    AtGateOnGrid(hle, s, sl, b, g, k);
    if GateOpen(AtGate(hle, s, sl)) {
      CheckOnGrid(AtGate(hle, s, sl), sl.plan, b, g, k);
    }
  }

  lemma JoinOnGrid(w: Swept, w1: Swept, g: Grid)
    requires SweptOnGrid(w1, g, Times(w.ran, TimerEvent(g.c)))
    ensures SweptOnGrid(Swept(w1.state, w.ran + w1.ran), g, 0)
  {
    TimesOfConcat(w.ran, w1.ran, TimerEvent(g.c));
  }

  /** Over any run, whatever the overshoot and however often the clock is rebased, a timer that has
      overflowed `k` times is next due exactly `k` periods after it was first due, and has sent one
      interrupt for each overflow if its interrupt is enabled. */
  lemma {:induction false} TimerStaysOnGrid(hle: bool, s: State, slices: seq<Slice>, b: Beat, g: Grid)
    requires b.Ok() && Settled(s, b) && RunOk(hle, s, slices, b) && (forall sl :: sl in slices ==> SliceLeaves(sl, g.c))
    requires OnGrid(s, g, 0)
    ensures var w := Run(hle, s, slices); SweptOnGrid(w, g, 0)
    decreases |slices|
  {
    if slices != [] {
      var n := |slices| - 1;
      var init := slices[..n];
      RunOkPrefix(hle, s, slices, n, b);
      RunSettled(hle, s, init, b);
      TimerStaysOnGrid(hle, s, init, b, g);
      var w := Run(hle, s, init);
      IterateOnGrid(hle, w.state, slices[n], b, g, Times(w.ran, TimerEvent(g.c)));
      JoinOnGrid(w, Iterate(hle, w.state, slices[n]), g);
    }
  }

  /** The ticks that have begun since the last overflow of a running timer. */
  function TicksBegun(s: State, c: Slot): int {
    TIME_OVERFLOW - s.channels[c].cntL - ShiftRight(s.channels[c].scheduled - s.count, s.channels[c].shift)
  }

  /** Reading a running counter gives its reload value plus the ticks since the last overflow, with a
      tick that has begun counted as a whole one, in sixteen bits. */
  lemma ReadCounterCountsTicks(s: State, c: Slot)
    requires s.channels[c].Running(c)
    requires s.count <= s.channels[c].scheduled <= s.count + s.channels[c].Period()
    ensures var k := s.channels[c]; var elapsed := k.Period() - (k.scheduled - s.count);
      && ShiftLeft(TicksBegun(s, c) - 1, k.shift) < elapsed <= ShiftLeft(TicksBegun(s, c), k.shift)
      && ReadCounter(s, c) == (k.cntL + TicksBegun(s, c)) % 0x1_0000
  {
  }
}
