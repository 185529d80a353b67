/**
 The calls of the scheduler, by the main loop and by translated code, and what holds over every run of them:
 the scheduler's lower bound, the agreement between timers and their scheduler slots, the bound on the clock, and
 which runs never rebase onto a timer that is late.
 */
module RunLoop {
  import opened Machine
  import opened Emulator
  import opened CycleManager

  /** Who calls the scheduler: the main loop after an execution, or translated ARM9 code during one, at a
      branch or while it waits in a loop. */
  datatype Site = MainLoop | Branch | IdleLoop

  /** What happens up to the next call of the scheduler: what guest code does meanwhile, how long each
      processor ran, and what the event handlers do in the call. An iteration of the main loop is any number
      of slices of translated code and then one of its own. */
  datatype Slice = Slice(at: Site, guest: seq<Action>, halted9: bool, cycles9: U16, halted9After: bool,
                         stopped7: bool, cycles7: U16, imm: ImmPlan, plan: Plan)

  function Halved(cycles9: U16): U16 { (cycles9 + 1) % 0x1_0000 / 2 }

  function Arm9Cycles(sl: Slice): U16 { if sl.at.MainLoop? && sl.halted9 then 0 else Halved(sl.cycles9) }

  function Arm7Cycles(sl: Slice): U16 { if sl.stopped7 then 0 else sl.cycles7 }

  /** Subtracting one with wrap-around turns "did not run" into the largest count. */
  function SliceCycles(a: U16, b: U16): U16 {
    (Min((a - 1) % 0x1_0000, (b - 1) % 0x1_0000) + 1) % 0x1_0000
  }

  /** A slice either jumps to the next event or adds its cycles, which at a branch can be none. */
  predicate Jumps(hle: bool, sl: Slice) {
    match sl.at
    case MainLoop => if hle then sl.halted9After else CyclesOf(hle, sl) == 0
    case Branch => false
    case IdleLoop => hle || sl.stopped7
  }

  function CyclesOf(hle: bool, sl: Slice): U16 {
    if sl.at.IdleLoop? then sl.cycles7
    else if hle then Arm9Cycles(sl)
    else SliceCycles(Arm9Cycles(sl), Arm7Cycles(sl))
  }

  function Advance(hle: bool, s: State, sl: Slice): State {
    if Jumps(hle, sl) then Jump(s) else AddCycles(s, CyclesOf(hle, sl))
  }

  function AtCheck(hle: bool, s: State, sl: Slice): State { Advance(hle, ActAll(s, sl.guest), sl) }

  function AtGate(hle: bool, s: State, sl: Slice): State { AfterImm(AtCheck(hle, s, sl), sl.imm) }

  function Iterate(hle: bool, s: State, sl: Slice): Swept { Check(AtCheck(hle, s, sl), sl.imm, sl.plan) }

  /** The state after a run and every event that ran, in order. */
  function Run(hle: bool, s: State, slices: seq<Slice>): Swept {
    if slices == [] then Swept(s, []) else
    var w := Run(hle, s, slices[..|slices| - 1]);
    var w' := Iterate(hle, w.state, slices[|slices| - 1]);
    Swept(w'.state, w.ran + w'.ran)
  }

  // ---- invariants ----

  const LONGEST_BEAT := 0x7000_0000
  // No run takes the clock past this.
  const CLOCK_LIMIT := REBASE_AT + LONGEST_BEAT + 0xFFFF

  predicate SlotMatches(s: State, c: Slot) {
    TimerEvent(c) in s.active && s.events[TimerEvent(c)] == s.channels[c].scheduled
  }

  predicate InSync(s: State, c: Slot) { s.channels[c].Running(c) ==> SlotMatches(s, c) }

  /** The scheduler invariants, while the events in `pending` still wait for their visit in a sweep and
      channel `adrift` has lost its event. */
  ghost predicate Fine(s: State, pending: set<Event>, adrift: int) {
    && s.count <= CLOCK_LIMIT
    && (forall e :: e in s.active && e !in pending ==> s.next <= s.events[e])
    && (forall c: Slot :: c != adrift ==> InSync(s, c))
  }

  ghost predicate NextIsLowerBound(s: State) { forall e :: e in s.active ==> s.next <= s.events[e] }

  ghost predicate Beating(s: State, h: Event, limit: int) { h in s.active && s.events[h] <= limit }

  // ---- what a run may do ----

  /** Only the timers schedule timer events, only the handler of the beat `h` schedules it, and a write
      does not turn a stopped or counting-up channel into a running one without rescheduling it. */
  predicate ActionOk(s: State, a: Action, h: Event) {
    match a
    case Schedule(_, e) => e != h && !IsTimer(e)
    case ScheduleFromDue(_, e) => e != h && !IsTimer(e)
    case SetCntH(c, mask, value) =>
      Reconfigured(s.channels[c], c, mask, value).Running(c) && !Updates(s.channels[c], c, mask, value) ==>
        SlotMatches(s, c)
    case _ => true
  }

  predicate ActionsOk(s: State, actions: seq<Action>, h: Event) {
    forall n :: 0 <= n < |actions| ==> ActionOk(ActAll(s, actions[..n]), actions[n], h)
  }

  lemma SetCntHFine(s: State, c: Slot, mask: bv16, value: bv16, pending: set<Event>)
    requires Fine(s, pending, -1) && ActionOk(s, Action.SetCntH(c, mask, value), 0)
    ensures Fine(DoSetCntH(s, c, mask, value), pending, -1)
  {
    var r := Reconfigured(s.channels[c], c, mask, value);
    var s' := DoSetCntH(s, c, mask, value);
    var remaining := ShiftLeft(TIME_OVERFLOW - r.current, r.shift);
    assert 1 <= remaining <= 0x400_0000;
    assert forall e :: e in s'.active && e !in pending ==> s'.next <= s'.events[e];
    forall x: Slot
      ensures InSync(s', x)
    {
      assert InSync(s, x);
      assert x != c ==> s'.channels[x] == s.channels[x] && s'.events[TimerEvent(x)] == s.events[TimerEvent(x)];
    }
  }

  /** In register bits: a started channel, other than the first, stops counting up without being stopped,
      and its prescaler selects the shift it has. */
  predicate Strands(k: Channel, c: Slot, mask: bv16, value: bv16) {
    var h := Masked(k.cntH, mask & 0xC7, value);
    c >= 2 && k.cntH & 0x84 == 0x84 && h & 0x84 == 0x80 && PrescalerShift(h, false) == k.shift
  }

  lemma StrandsExactly(k: Channel, c: Slot, mask: bv16, value: bv16)
    ensures Strands(k, c, mask, value)
      <==> !k.Running(c) && Reconfigured(k, c, mask, value).Running(c) && !Updates(k, c, mask, value)
  {
    var h := Masked(k.cntH, mask & 0xC7, value);
    assert Reconfigured(k, c, mask, value).cntH == h;
    if mask & 0xC7 == 0 {
      assert h == k.cntH by { NothingMasked(k.cntH, mask & 0xC7, value); }
    }
  }

  lemma NothingMasked(current: bv16, mask: bv16, value: bv16)
    requires mask == 0
    ensures Masked(current, mask, value) == current
  {
  }

  lemma ScheduledInSync(s: State, c: Slot, remaining: U32)
    requires s.count <= CLOCK_LIMIT && 1 <= remaining <= 0x400_0000
    requires s.channels[c].scheduled == WrappingAdd(s.count, remaining)
    ensures InSync(DoSchedule(s, remaining, TimerEvent(c)), c)
  {
  }

  lemma RemainingBounds(k: Channel)
    ensures 1 <= ShiftLeft(TIME_OVERFLOW - k.current, k.shift) <= 0x400_0000
  {
  }

  lemma UpdateSchedules(s: State, c: Slot, mask: bv16, value: bv16)
    requires s.count <= CLOCK_LIMIT && Updates(s.channels[c], c, mask, value)
    ensures InSync(DoSetCntH(s, c, mask, value), c)
  {
    var r := Reconfigured(s.channels[c], c, mask, value);
    RemainingBounds(r);
    if r.Running(c) {
      var remaining := ShiftLeft(TIME_OVERFLOW - r.current, r.shift);
      ScheduledInSync(s.(channels := s.channels[c := r.(scheduled := WrappingAdd(s.count, remaining))]), c, remaining);
    } else {
      assert DoSetCntH(s, c, mask, value).channels[c] == r;
    }
  }

  /** A control write to a channel that is in step with its event leaves it in step exactly when it does not
      strand it, or finds the event of an earlier run still armed. */
  lemma SetCntHSyncExact(s: State, c: Slot, mask: bv16, value: bv16)
    requires s.count <= CLOCK_LIMIT && InSync(s, c)
    ensures InSync(DoSetCntH(s, c, mask, value), c) <==> !Strands(s.channels[c], c, mask, value) || SlotMatches(s, c)
  {
    var k, r := s.channels[c], Reconfigured(s.channels[c], c, mask, value);
    StrandsExactly(k, c, mask, value);
    if Updates(k, c, mask, value) {
      UpdateSchedules(s, c, mask, value);
    } else {
      assert r.scheduled == k.scheduled;
      assert DoSetCntH(s, c, mask, value) == s.(channels := s.channels[c := r]);
    }
  }

  /** Two writes to a fresh channel, to start it counting up and then to let it run by itself, both of the
      whole register, make it run with no event: it never overflows. */
  lemma ClearingCountUpStrands(s: State, c: Slot)
    requires c >= 2 && s.channels[c] == Channel(0, 0, 0, 0, 0) && TimerEvent(c) !in s.active
    ensures var s' := DoSetCntH(DoSetCntH(s, c, 0xFFFF, 0x84), c, 0xFFFF, 0x80);
      s'.channels[c].Running(c) && TimerEvent(c) !in s'.active
  {
  }

  lemma OtherActInSync(s: State, a: Action, h: Event, x: Slot)
    requires InSync(s, x) && ActionOk(s, a, h) && !a.SetCntH?
    ensures InSync(Act(s, a), x)
  {
    var s' := Act(s, a);
    assert s'.channels[x].Running(x) == s.channels[x].Running(x);
    assert s'.channels[x].scheduled == s.channels[x].scheduled;
    assert s'.events[TimerEvent(x)] == s.events[TimerEvent(x)];
  }

  lemma OtherActNext(s: State, a: Action, pending: set<Event>)
    requires Fine(s, pending, -1) && !a.SetCntH?
    ensures var s' := Act(s, a); forall e :: e in s'.active && e !in pending ==> s'.next <= s'.events[e]
  {
  }

  lemma ActFine(s: State, a: Action, h: Event, pending: set<Event>)
    requires Fine(s, pending, -1) && ActionOk(s, a, h) && !IsTimer(h)
    ensures Fine(Act(s, a), pending, -1)
    ensures Act(s, a).events[h] == s.events[h]
  {
    if a.SetCntH? {
      SetCntHFine(s, a.slot, a.maskH, a.valueH, pending);
    } else {
      OtherActNext(s, a, pending);
      forall x: Slot
        ensures InSync(Act(s, a), x)
      {
        assert InSync(s, x);
        OtherActInSync(s, a, h, x);
      }
    }
  }

  lemma {:induction false} ActAllFine(s: State, actions: seq<Action>, h: Event, pending: set<Event>)
    requires Fine(s, pending, -1) && ActionsOk(s, actions, h) && !IsTimer(h)
    ensures Fine(ActAll(s, actions), pending, -1)
    ensures ActAll(s, actions).events[h] == s.events[h]
    decreases |actions|
  {
    if actions != [] {
      var init := actions[..|actions| - 1];
      assert forall n :: 0 <= n <= |init| ==> init[..n] == actions[..n];
      ActAllFine(s, init, h, pending);
      ActFine(ActAll(s, init), actions[|actions| - 1], h, pending);
    }
  }

  lemma ReloadedFine(s: State, c: Slot, pending: set<Event>)
    requires Fine(s, pending, c)
    ensures Fine(Reloaded(s, c), pending, -1)
  {
    var s' := Reloaded(s, c);
    forall x: Slot
      ensures InSync(s', x)
    {
      if x != c {
        assert InSync(s, x);
        assert s'.channels[x] == s.channels[x] && s'.events[TimerEvent(x)] == s.events[TimerEvent(x)];
      }
    }
  }

  lemma TickedFine(s: State, c: Slot, pending: set<Event>)
    requires Fine(s, pending, -1)
    ensures Fine(Ticked(s, c), pending, -1)
  {
    var s' := Ticked(s, c);
    forall x: Slot
      ensures InSync(s', x)
    {
      assert InSync(s, x);
    }
  }

  lemma {:induction false} OverflowFine(s: State, c: Slot, h: Event, pending: set<Event>)
    requires Fine(s, pending, c) && !IsTimer(h)
    ensures Fine(Overflow(s, c), pending, -1)
    ensures Overflow(s, c).events[h] == s.events[h]
    decreases TIMER_COUNT - c
  {
    if s.channels[c].Start() {
      ReloadedFine(s, c, pending);
      var s1 := Reloaded(s, c);
      if c + 2 < TIMER_COUNT && s.channels[c].CountUpBit() {
        TickedFine(s1, c, pending);
        if Ticked(s1, c).channels[c].current == 0 {
          OverflowFine(Ticked(s1, c), c + 2, h, pending);
        }
      }
    } else {
      assert forall x: Slot :: InSync(s, x);
    }
  }

  // ---- one sweep ----

  /** The beat: an event whose handler ends by scheduling it again, at most `longest` after it was due. */
  datatype Beat = Beat(h: Event, longest: int)
  {
    predicate Ok() { !IsTimer(h) && 1 <= longest <= LONGEST_BEAT }
    function Limit(now: U32): int { (if now < REBASE_AT then REBASE_AT else now) + longest }
  }

  function Dispatched(s: State, e: Event): State { s.(active := s.active - {e}, due := s.events[e]) }

  /** The state in which the actions of a dispatched event's handler start. */
  function AtHandler(s: State, e: Event): State {
    if IsTimer(e) then Overflow(Dispatched(s, e), e - FIRST_TIMER) else Dispatched(s, e)
  }

  predicate Rebeats(actions: seq<Action>, b: Beat) {
    && actions != []
    && var last := actions[|actions| - 1];
    last.ScheduleFromDue? && last.event == b.h && 1 <= last.delay <= b.longest
  }

  predicate HandlerOk(s: State, e: Event, plan: Plan, b: Beat) {
    if e == b.h then Rebeats(plan[e], b) && ActionsOk(AtHandler(s, e), plan[e][..|plan[e]| - 1], b.h)
    else ActionsOk(AtHandler(s, e), plan[e], b.h)
  }

  predicate SweepOk(s: State, armed: set<Event>, plan: Plan, b: Beat) {
    forall e: Event :: e in armed ==>
      var before := Sweep(s, armed, s.count, plan, e).state;
      before.events[e] <= s.count ==> HandlerOk(before, e, plan, b)
  }

  function From(armed: set<Event>, n: nat): set<Event> { set e | e in armed && e >= n }

  lemma DispatchedFine(s: State, e: Event, h: Event, pending: set<Event>)
    requires Fine(s, pending + {e}, -1) && !IsTimer(h)
    ensures Fine(AtHandler(s, e), pending, -1)
    ensures AtHandler(s, e).events[h] == s.events[h]
    ensures h != e && h in s.active ==> h in AtHandler(s, e).active
  {
    var s1 := Dispatched(s, e);
    forall c: Slot | TimerEvent(c) != e
      ensures InSync(s1, c)
    {
      assert InSync(s, c);
    }
    if IsTimer(e) {
      OverflowFine(s1, e - FIRST_TIMER, h, pending);
    } else {
      assert forall c: Slot :: TimerEvent(c) != e;
    }
  }

  lemma VisitFine(w: Swept, e: Event, plan: Plan, b: Beat, pending: set<Event>)
    requires b.Ok() && Fine(w.state, pending + {e}, -1)
    requires Beating(w.state, b.h, b.Limit(w.state.count))
    requires w.state.events[e] <= w.state.count ==> HandlerOk(w.state, e, plan, b)
    ensures var r := Visit(w, e, w.state.count, plan).state;
      Fine(r, pending, -1) && Beating(r, b.h, b.Limit(r.count)) && r.count == w.state.count && r.base == w.state.base
  {
    var s := w.state;
    if s.events[e] <= s.count {
      DispatchedFine(s, e, b.h, pending);
      var s1 := AtHandler(s, e);
      if e == b.h {
        var init := plan[e][..|plan[e]| - 1];
        ActAllFine(s1, init, b.h, pending);
        RebeatFine(ActAll(s1, init), plan[e][|plan[e]| - 1], pending);
      } else {
        ActAllFine(s1, plan[e], b.h, pending);
      }
    } else {
      var r := Visit(w, e, s.count, plan).state;
      forall c: Slot
        ensures InSync(r, c)
      {
        assert InSync(s, c);
      }
    }
  }

  lemma RebeatFine(s: State, a: Action, pending: set<Event>)
    requires Fine(s, pending, -1) && a.ScheduleFromDue? && !IsTimer(a.event)
    ensures Fine(Act(s, a), pending, -1)
    ensures Act(s, a).events[a.event] <= s.due + a.delay && a.event in Act(s, a).active
  {
    var s' := Act(s, a);
    forall c: Slot
      ensures InSync(s', c)
    {
      assert InSync(s, c) && s'.events[TimerEvent(c)] == s.events[TimerEvent(c)];
    }
  }

  /** What holds of a sweep that started from `s`, while `pending` is still to be visited. */
  ghost predicate Sweeping(s: State, r: State, pending: set<Event>, b: Beat) {
    Fine(r, pending, -1) && Beating(r, b.h, b.Limit(s.count)) && r.count == s.count && r.base == s.base
  }

  lemma {:induction false} SweepFine(s: State, armed: set<Event>, plan: Plan, b: Beat, n: nat)
    requires n <= EVENT_COUNT && b.Ok() && Sweeping(s, s, armed, b)
    requires SweepOk(s, armed, plan, b)
    ensures Sweeping(s, Sweep(s, armed, s.count, plan, n).state, From(armed, n), b)
  {
    if n == 0 {
      assert From(armed, 0) == armed;
    } else {
      SweepFine(s, armed, plan, b, n - 1);
      SweepStepFine(s, armed, plan, b, n - 1);
    }
  }

  lemma SweepStep(s: State, armed: set<Event>, now: U32, plan: Plan, e: Event)
    ensures var w := Sweep(s, armed, now, plan, e);
      Sweep(s, armed, now, plan, e + 1) == if e in armed then Visit(w, e, now, plan) else w
  {
  }

  lemma FromNext(armed: set<Event>, e: Event)
    ensures From(armed, e) == if e in armed then From(armed, e + 1) + {e} else From(armed, e + 1)
  {
  }

  lemma SweepVisitFine(s: State, w: Swept, pending: set<Event>, plan: Plan, b: Beat, e: Event)
    requires b.Ok() && Sweeping(s, w.state, pending + {e}, b)
    requires w.state.events[e] <= w.state.count ==> HandlerOk(w.state, e, plan, b)
    ensures Sweeping(s, Visit(w, e, s.count, plan).state, pending, b)
  {
    VisitFine(w, e, plan, b, pending);
  }

  lemma SweepOkAt(s: State, armed: set<Event>, plan: Plan, b: Beat, e: Event)
    requires SweepOk(s, armed, plan, b) && e in armed
    ensures var before := Sweep(s, armed, s.count, plan, e).state;
      before.events[e] <= s.count ==> HandlerOk(before, e, plan, b)
  {
  }

  lemma SweepStepFine(s: State, armed: set<Event>, plan: Plan, b: Beat, e: Event)
    requires b.Ok() && SweepOk(s, armed, plan, b)
    requires Sweeping(s, Sweep(s, armed, s.count, plan, e).state, From(armed, e), b)
    ensures Sweeping(s, Sweep(s, armed, s.count, plan, e + 1).state, From(armed, e + 1), b)
  {
    SweepStep(s, armed, s.count, plan, e);
    FromNext(armed, e);
    if e in armed {
      SweepOkAt(s, armed, plan, b, e);
      SweepVisitFine(s, Sweep(s, armed, s.count, plan, e), From(armed, e + 1), plan, b, e);
    }
  }

  predicate ImmOk(s: State, pending: set<ImmEvent>, plan: ImmPlan, h: Event) {
    forall i: ImmEvent :: i in pending ==> ActionsOk(ImmSweep(s, pending, plan, i), plan[i], h)
  }

  lemma {:induction false} ImmSweepFine(s: State, pending: set<ImmEvent>, plan: ImmPlan, h: Event, n: nat)
    requires n <= IMM_COUNT && Fine(s, {}, -1) && ImmOk(s, pending, plan, h) && !IsTimer(h)
    ensures var r := ImmSweep(s, pending, plan, n);
      Fine(r, {}, -1) && r.events[h] == s.events[h] && SameClock(s, r)
  {
    if n > 0 {
      ImmSweepFine(s, pending, plan, h, n - 1);
      if n - 1 in pending {
        ActAllFine(ImmSweep(s, pending, plan, n - 1), plan[n - 1], h, {});
      }
    }
  }

  // ---- the rebase ----

  lemma RebasedAt(s: State, e: Event)
    requires e in s.active && s.events[e] >= s.count
    ensures Rebase(s).events[e] == s.events[e] - s.count
    ensures Rebase(s).DueAt(e) == s.DueAt(e)
  {
  }

  lemma RebasedInSync(s: State, c: Slot)
    requires InSync(s, c) && (TimerEvent(c) in s.active ==> s.events[TimerEvent(c)] >= s.count)
    ensures InSync(Rebase(s), c)
  {
    if s.channels[c].Running(c) {
      RebasedAt(s, TimerEvent(c));
    }
  }

  ghost predicate KeepsDueTimes(s: State, r: State) { forall e :: e in s.active ==> r.DueAt(e) == s.DueAt(e) }

  /** A rebase leaves every active event due when it was, and the next event cycle below all of them,
      exactly when the next event cycle is not in the past. */
  lemma RebaseExact(s: State)
    requires NextIsLowerBound(s) && s.active != {}
    ensures Rebase(s).Now() == s.Now()
    ensures s.next >= s.count <==> KeepsDueTimes(s, Rebase(s)) && NextIsLowerBound(Rebase(s))
  {
    var r := Rebase(s);
    if s.next >= s.count {
      forall e | e in s.active
        ensures r.DueAt(e) == s.DueAt(e) && r.next <= r.events[e]
      {
        RebasedAt(s, e);
      }
    } else if KeepsDueTimes(s, r) {
      var e :| e in s.active;
      assert r.DueAt(e) == s.DueAt(e);
      assert r.next > r.events[e];
    }
  }

  lemma RebaseFine(s: State)
    requires Fine(s, {}, -1) && s.next >= s.count && s.active != {}
    ensures Fine(Rebase(s), {}, -1)
  {
    RebaseExact(s);
    forall c: Slot
      ensures InSync(Rebase(s), c)
    {
      assert InSync(s, c);
      RebasedInSync(s, c);
    }
  }

  // ---- whole runs ----

  /** What guest code and handlers may do in a slice. */
  predicate SliceAllowed(hle: bool, s: State, sl: Slice, b: Beat) {
    && ActionsOk(s, sl.guest, b.h)
    && ImmOk(AtCheck(hle, s, sl).(imm := {}), AtCheck(hle, s, sl).imm, sl.imm, b.h)
    && var s1 := AtGate(hle, s, sl);
    GateOpen(s1) ==> SweepOk(s1.(next := U32_MAX), s1.active, sl.plan, b)
  }

  /** A rebase meets the condition of `RebaseExact`. */
  predicate RebaseOk(s: State, plan: Plan) {
    GateOpen(s) && s.count > REBASE_AT ==> SweepAll(s, plan).state.next >= s.count
  }

  predicate SliceOk(hle: bool, s: State, sl: Slice, b: Beat) {
    SliceAllowed(hle, s, sl, b) && RebaseOk(AtGate(hle, s, sl), sl.plan)
  }

  predicate RunOk(hle: bool, s: State, slices: seq<Slice>, b: Beat) {
    forall n :: 0 <= n < |slices| ==> SliceOk(hle, Run(hle, s, slices[..n]).state, slices[n], b)
  }

  /** What holds between slices. */
  ghost predicate Settled(s: State, b: Beat) {
    Fine(s, {}, -1) && Beating(s, b.h, REBASE_AT + b.longest) && (s.count <= REBASE_AT || !GateOpen(s))
  }

  lemma ClockFine(s: State, count: U32)
    requires Fine(s, {}, -1) && count <= CLOCK_LIMIT
    ensures Fine(s.(count := count), {}, -1)
  {
    forall c: Slot
      ensures InSync(s.(count := count), c)
    {
      assert InSync(s, c);
    }
  }

  lemma AtCheckFine(hle: bool, s: State, sl: Slice, b: Beat)
    requires b.Ok() && Settled(s, b) && SliceAllowed(hle, s, sl, b)
    ensures var r := AtCheck(hle, s, sl);
      Fine(r, {}, -1) && Beating(r, b.h, REBASE_AT + b.longest) && r.Now() >= s.Now() && r.base == s.base
  {
    ActAllFine(s, sl.guest, b.h, {});
    var s1 := ActAll(s, sl.guest);
    assert s1.count <= REBASE_AT + b.longest;
    ClockFine(s1, AtCheck(hle, s, sl).count);
  }

  lemma AtGateFine(hle: bool, s: State, sl: Slice, b: Beat)
    requires b.Ok() && Settled(s, b) && SliceAllowed(hle, s, sl, b)
    ensures var r := AtGate(hle, s, sl);
      Fine(r, {}, -1) && Beating(r, b.h, REBASE_AT + b.longest) && r.Now() >= s.Now() && r.base == s.base
  {
    AtCheckFine(hle, s, sl, b);
    var s1 := AtCheck(hle, s, sl);
    forall c: Slot
      ensures InSync(s1.(imm := {}), c)
    {
      assert InSync(s1, c);
    }
    ImmSweepFine(s1.(imm := {}), s1.imm, sl.imm, b.h, IMM_COUNT);
  }

  lemma SweepAllFine(s: State, plan: Plan, b: Beat)
    requires b.Ok() && Fine(s, {}, -1) && Beating(s, b.h, REBASE_AT + b.longest)
    requires SweepOk(s.(next := U32_MAX), s.active, plan, b)
    ensures Sweeping(s, SweepAll(s, plan).state, {}, b)
  {
    var s1 := s.(next := U32_MAX);
    forall c: Slot
      ensures InSync(s1, c)
    {
      assert InSync(s, c);
    }
    SweepFine(s1, s.active, plan, b, EVENT_COUNT);
    assert From(s.active, EVENT_COUNT) == {};
  }

  /** One slice keeps the invariants, never moves the clock back, and never enters the dispatch
      loop with nothing active. */
  lemma IterateSettled(hle: bool, s: State, sl: Slice, b: Beat)
    requires b.Ok() && Settled(s, b) && SliceOk(hle, s, sl, b)
    ensures AtGate(hle, s, sl).active != {}
    ensures Settled(Iterate(hle, s, sl).state, b)
    ensures Iterate(hle, s, sl).state.Now() >= s.Now()
  {
    AtGateFine(hle, s, sl, b);
    var s1 := AtGate(hle, s, sl);
    assert b.h in s1.active;
    if GateOpen(s1) {
      SweepAllFine(s1, sl.plan, b);
      var s2 := SweepAll(s1, sl.plan).state;
      if s1.count > REBASE_AT {
        RebaseFine(s2);
        RebasedAt(s2, b.h);
      }
    }
  }

  /** Over any run: the scheduler invariants hold, the 32-bit clock stays below its limit, and unwrapped
      time does not decrease. */
  lemma {:induction false} RunSettled(hle: bool, s: State, slices: seq<Slice>, b: Beat)
    requires b.Ok() && Settled(s, b) && RunOk(hle, s, slices, b)
    ensures Settled(Run(hle, s, slices).state, b)
    ensures Run(hle, s, slices).state.Now() >= s.Now()
    decreases |slices|
  {
    if slices != [] {
      var init := slices[..|slices| - 1];
      assert forall n :: 0 <= n <= |init| ==> init[..n] == slices[..n];
      RunSettled(hle, s, init, b);
      IterateSettled(hle, Run(hle, s, init).state, slices[|slices| - 1], b);
    }
  }

  // ---- runs that keep up ----

  /** No event is due before the clock when a slice starts. */
  predicate KeepsUp(s: State) { s.next >= s.count }

  /** An action that arms nothing in the past, `late` cycles after the event dispatched was due. */
  predicate PromptAction(a: Action, late: int) {
    match a
    case ScheduleFromDue(delay, _) => delay >= late
    case SetCntL(_, _, _) => false
    case SetCntH(_, _, _) => false
    case _ => true
  }

  predicate AllPrompt(actions: seq<Action>, late: int) {
    forall n :: 0 <= n < |actions| ==> PromptAction(actions[n], late)
  }

  /** Handlers reschedule by at least `late` cycles and do not reprogram timers, whose periods are as long. */
  predicate Prompt(s: State, plan: Plan, late: int) {
    && (forall c: Slot :: s.channels[c].Running(c) ==> s.channels[c].Period() >= late)
    && (forall e: Event :: AllPrompt(plan[e], late))
  }

  /** During a sweep at `now`, events in `armed` are due at `first` or later, and the next event, so far, not
      before `now`. */
  ghost predicate Ahead(s: State, armed: set<Event>, now: U32, first: int) {
    && first <= now == s.count <= s.next
    && (forall e :: e in armed ==> s.events[e] >= first)
    && (forall c: Slot :: s.channels[c].Running(c) ==> s.channels[c].Period() >= now - first)
  }

  lemma ArmAhead(s: State, e: Event, at: U32, armed: set<Event>, now: U32, first: int)
    requires Ahead(s, armed, now, first) && at >= now
    ensures Ahead(Arm(s, e, at), armed, now, first)
  {
  }

  lemma ActAhead(s: State, a: Action, armed: set<Event>, now: U32, first: int)
    requires Ahead(s, armed, now, first) && s.due >= first && PromptAction(a, now - first)
    ensures Ahead(Act(s, a), armed, now, first)
  {
    match a
    case ScheduleFromDue(delay, e) => ArmAhead(s, e, SaturatingAdd(s.due, delay), armed, now, first);
    case _ =>
  }

  lemma {:induction false} ActAllAhead(s: State, actions: seq<Action>, armed: set<Event>, now: U32, first: int)
    requires Ahead(s, armed, now, first) && s.due >= first && AllPrompt(actions, now - first)
    ensures Ahead(ActAll(s, actions), armed, now, first)
    decreases |actions|
  {
    if actions != [] {
      var init := actions[..|actions| - 1];
      ActAllAhead(s, init, armed, now, first);
      ActAhead(ActAll(s, init), actions[|actions| - 1], armed, now, first);
    }
  }

  lemma ReloadedAhead(s: State, c: Slot, armed: set<Event>, now: U32, first: int)
    requires Ahead(s, armed, now, first) && s.due >= first && s.channels[c].Start()
    ensures Ahead(Reloaded(s, c), armed, now, first) && Reloaded(s, c).due == s.due
  {
    var k := s.channels[c].(current := s.channels[c].cntL);
    if k.Running(c) {
      assert s.channels[c].Running(c) && s.channels[c].Period() == k.Period();
      var s1: State := s.(channels := s.channels[c := k.(scheduled := SaturatingAdd(s.due, k.Period()))]);
      assert Ahead(s1, armed, now, first);
      ArmAhead(s1, TimerEvent(c), SaturatingAdd(s.due, k.Period()), armed, now, first);
    }
  }

  lemma {:induction false} OverflowAhead(s: State, c: Slot, armed: set<Event>, now: U32, first: int)
    requires Ahead(s, armed, now, first) && s.due >= first
    ensures Ahead(Overflow(s, c), armed, now, first)
    decreases TIMER_COUNT - c
  {
    if s.channels[c].Start() {
      ReloadedAhead(s, c, armed, now, first);
      var s2 := Ticked(Reloaded(s, c), c);
      assert Ahead(s2, armed, now, first);
      if c + 2 < TIMER_COUNT && s.channels[c].CountUpBit() && s2.channels[c].current == 0 {
        OverflowAhead(s2, c + 2, armed, now, first);
      }
    }
  }

  lemma VisitAhead(w: Swept, e: Event, armed: set<Event>, plan: Plan, now: U32, first: int)
    requires Ahead(w.state, armed, now, first) && e in armed
    requires AllPrompt(plan[e], now - first)
    ensures Ahead(Visit(w, e, now, plan).state, armed, now, first)
  {
    if w.state.events[e] <= now {
      var s1 := Dispatched(w.state, e);
      assert Ahead(s1, armed, now, first);
      if IsTimer(e) {
        OverflowAhead(s1, e - FIRST_TIMER, armed, now, first);
      }
      ActAllAhead(AtHandler(w.state, e), plan[e], armed, now, first);
    }
  }

  lemma {:induction false} SweepAhead(s: State, armed: set<Event>, plan: Plan, now: U32, first: int, n: nat)
    requires n <= EVENT_COUNT && Ahead(s, armed, now, first)
    requires forall e: Event :: AllPrompt(plan[e], now - first)
    ensures Ahead(Sweep(s, armed, now, plan, n).state, armed, now, first)
  {
    if n > 0 {
      SweepAhead(s, armed, plan, now, first, n - 1);
      SweepStep(s, armed, now, plan, n - 1);
      if n - 1 in armed {
        VisitAhead(Sweep(s, armed, now, plan, n - 1), n - 1, armed, plan, now, first);
      }
    }
  }

  /** When every period and every rescheduling delay is at least as long as the oldest event is late, a sweep
      leaves nothing in the past. */
  lemma PromptSweepCatchesUp(s: State, plan: Plan)
    requires NextIsLowerBound(s) && GateOpen(s) && Prompt(s, plan, s.count - s.next)
    ensures SweepAll(s, plan).state.next >= s.count
  {
    SweepAhead(s.(next := U32_MAX), s.active, plan, s.count, s.next, EVENT_COUNT);
  }

  /** Outside handlers nothing is scheduled from a due cycle, and in them nothing by less than the slice is
      long. */
  predicate SlicePrompt(hle: bool, s: State, sl: Slice) {
    && (forall a :: a in sl.guest ==> !a.ScheduleFromDue?)
    && (forall i: ImmEvent :: forall a :: a in sl.imm[i] ==> !a.ScheduleFromDue?)
    && Prompt(AtGate(hle, s, sl), sl.plan, LateBy(hle, sl))
  }

  function LateBy(hle: bool, sl: Slice): nat { if Jumps(hle, sl) then 0 else CyclesOf(hle, sl) }

  lemma {:induction false} NextStaysAbove(s: State, actions: seq<Action>, floor: int)
    requires floor <= s.count && floor <= s.next && forall a :: a in actions ==> !a.ScheduleFromDue?
    ensures floor <= ActAll(s, actions).next
    decreases |actions|
  {
    if actions != [] {
      NextStaysAbove(s, actions[..|actions| - 1], floor);
    }
  }

  lemma {:induction false} ImmNextStaysAbove(s: State, pending: set<ImmEvent>, plan: ImmPlan, floor: int, n: nat)
    requires n <= IMM_COUNT && floor <= s.count && floor <= s.next
    requires forall i: ImmEvent :: forall a :: a in plan[i] ==> !a.ScheduleFromDue?
    ensures var r := ImmSweep(s, pending, plan, n); floor <= r.next && r.count == s.count
  {
    if n > 0 {
      ImmNextStaysAbove(s, pending, plan, floor, n - 1);
      if n - 1 in pending {
        NextStaysAbove(ImmSweep(s, pending, plan, n - 1), plan[n - 1], floor);
      }
    }
  }

  /** At the gate the next event is late by no more than the cycles of the slice. */
  lemma GateLateBy(hle: bool, s: State, sl: Slice, b: Beat)
    requires b.Ok() && Settled(s, b) && SliceAllowed(hle, s, sl, b) && KeepsUp(s) && SlicePrompt(hle, s, sl)
    ensures AtGate(hle, s, sl).count - AtGate(hle, s, sl).next <= LateBy(hle, sl)
  {
    NextStaysAbove(s, sl.guest, s.count);
    var s1 := AtCheck(hle, s, sl);
    ImmNextStaysAbove(s1.(imm := {}), s1.imm, sl.imm, s1.count - LateBy(hle, sl), IMM_COUNT);
  }

  lemma PromptSliceOk(hle: bool, s: State, sl: Slice, b: Beat)
    requires b.Ok() && Settled(s, b) && SliceAllowed(hle, s, sl, b) && KeepsUp(s) && SlicePrompt(hle, s, sl)
    ensures SliceOk(hle, s, sl, b) && KeepsUp(Iterate(hle, s, sl).state)
  {
    AtGateFine(hle, s, sl, b);
    GateLateBy(hle, s, sl, b);
    var s1 := AtGate(hle, s, sl);
    if GateOpen(s1) {
      PromptSweepCatchesUp(s1, sl.plan);
      SweepAllFine(s1, sl.plan, b);
    }
  }

  predicate RunPrompt(hle: bool, s: State, slices: seq<Slice>, b: Beat) {
    forall n :: 0 <= n < |slices| ==>
      var before := Run(hle, s, slices[..n]).state;
      SliceAllowed(hle, before, slices[n], b) && SlicePrompt(hle, before, slices[n])
  }

  lemma RunUnfolds(hle: bool, s: State, slices: seq<Slice>, n: nat)
    requires n < |slices|
    ensures Run(hle, s, slices[..n + 1]).state == Iterate(hle, Run(hle, s, slices[..n]).state, slices[n]).state
  {
    assert slices[..n + 1][..n] == slices[..n];
  }

  lemma PromptStep(hle: bool, s: State, slices: seq<Slice>, n: nat, b: Beat)
    requires b.Ok() && n < |slices| && RunPrompt(hle, s, slices, b)
    requires var before := Run(hle, s, slices[..n]).state; Settled(before, b) && KeepsUp(before)
    ensures SliceOk(hle, Run(hle, s, slices[..n]).state, slices[n], b)
    ensures var after := Run(hle, s, slices[..n + 1]).state; Settled(after, b) && KeepsUp(after)
  {
    var before := Run(hle, s, slices[..n]).state;
    PromptSliceOk(hle, before, slices[n], b);
    IterateSettled(hle, before, slices[n], b);
    RunUnfolds(hle, s, slices, n);
  }

  lemma {:induction false} PromptKeepsUp(hle: bool, s: State, slices: seq<Slice>, n: nat, b: Beat)
    requires b.Ok() && n <= |slices| && RunPrompt(hle, s, slices, b) && Settled(s, b) && KeepsUp(s)
    ensures var r := Run(hle, s, slices[..n]).state; Settled(r, b) && KeepsUp(r)
  {
    if n > 0 {
      PromptKeepsUp(hle, s, slices, n - 1, b);
      PromptStep(hle, s, slices, n - 1, b);
    }
  }

  /** No rebase meets an event in the past in a run whose slices are shorter than the periods of its timers
      and the delays by which handlers reschedule. */
  lemma PromptRunOk(hle: bool, s: State, slices: seq<Slice>, b: Beat)
    requires b.Ok() && Settled(s, b) && KeepsUp(s) && RunPrompt(hle, s, slices, b)
    ensures RunOk(hle, s, slices, b)
  {
    forall n | 0 <= n < |slices|
      ensures SliceOk(hle, Run(hle, s, slices[..n]).state, slices[n], b)
    {
      PromptKeepsUp(hle, s, slices, n, b);
      PromptStep(hle, s, slices, n, b);
    }
  }

  const SPU_SAMPLE: Event := 2
  const SPU_PERIOD := 1024

  /** The sound unit's sample event, armed when the machine starts, is such a beat. */
  lemma BootSettled()
    ensures var boot: State := Emu(0, seq(EVENT_COUNT, _ => 0), U32_MAX, {}, {}, 0,
                                   seq(TIMER_COUNT, _ => Channel(0, 0, 0, 0, 0)), seq(TIMER_COUNT, _ => 0), 0);
      var s := DoSchedule(boot, SPU_PERIOD, SPU_SAMPLE); Settled(s, Beat(SPU_SAMPLE, SPU_PERIOD)) && KeepsUp(s)
  {
  }

  // ---- a run that does meet a past-due event in a rebase ----

  /** Just below the threshold: the sound unit's beat is armed, and a timer that overflows every cycle is
      due in the next one. */
  function LateStart(): State {
    Emu(REBASE_AT,
        seq(EVENT_COUNT, e => if e == SPU_SAMPLE then 0x8000_0200 else if e == FIRST_TIMER then 0x8000_0000 else 0),
        0x8000_0000, {SPU_SAMPLE, FIRST_TIMER}, {}, 0,
        seq(TIMER_COUNT, c => if c == 0 then Channel(0xFFFF, 0x80, 0xFFFF, 0, 0x8000_0000) else Channel(0, 0, 0, 0, 0)),
        seq(TIMER_COUNT, _ => 0), 0)
  }

  /** A slice of a hundred cycles in which nothing is written, and handlers that only keep the beat. */
  function LateSlice(): Slice {
    Slice(MainLoop, [], false, 199, false, true, 0, seq(IMM_COUNT, _ => []),
          seq(EVENT_COUNT, e => if e == SPU_SAMPLE then [ScheduleFromDue(SPU_PERIOD, SPU_SAMPLE)] else []))
  }

  const SPU_BEAT := Beat(SPU_SAMPLE, SPU_PERIOD)

  lemma LateSettled()
    ensures Settled(LateStart(), SPU_BEAT)
  {
    var s := LateStart();
    forall c: Slot
      ensures InSync(s, c)
    {
    }
  }

  /** Where the slice comes to the gate. */
  function LateAtGate(): State { LateStart().(count := 0x8000_0063) }

  lemma LateReachesGate()
    ensures AtGate(true, LateStart(), LateSlice()) == LateAtGate() && GateOpen(LateAtGate())
  {
    var s := AtCheck(true, LateStart(), LateSlice());
    assert s == LateAtGate();
    ImmSweepSkips(s.(imm := {}), {}, LateSlice().imm, 0, IMM_COUNT);
  }

  lemma LateSweep()
    ensures var w := SweepAll(LateAtGate(), LateSlice().plan).state;
      w.next == 0x8000_0001 && w.count == 0x8000_0063 && FIRST_TIMER in w.active && w.events[FIRST_TIMER] == 0x8000_0001
  {
    var s, plan, armed := LateAtGate().(next := U32_MAX), LateSlice().plan, LateAtGate().active;
    SweepSkips(s, armed, s.count, plan, 0, SPU_SAMPLE);
    var w2 := Sweep(s, armed, s.count, plan, SPU_SAMPLE);
    assert w2 == Swept(s, []);
    var w3 := Sweep(s, armed, s.count, plan, FIRST_TIMER);
    assert w3 == Visit(w2, SPU_SAMPLE, s.count, plan) == Swept(s.(next := 0x8000_0200), []);
    var w4 := Sweep(s, armed, s.count, plan, FIRST_TIMER + 1);
    assert w4 == Visit(w3, FIRST_TIMER, s.count, plan);
    LateOverflow(w3.state, plan);
    SweepSkips(s, armed, s.count, plan, FIRST_TIMER + 1, EVENT_COUNT);
  }

  lemma LateOverflow(s: State, plan: Plan)
    requires s == LateAtGate().(next := 0x8000_0200) && plan == LateSlice().plan
    ensures var w := Visit(Swept(s, []), FIRST_TIMER, s.count, plan).state;
      w.next == 0x8000_0001 && w.count == s.count && FIRST_TIMER in w.active && w.events[FIRST_TIMER] == 0x8000_0001
  {
    var s1 := Dispatched(s, FIRST_TIMER);
    var r := Overflow(s1, 0);
    assert r == Reloaded(s1, 0);
    assert plan[FIRST_TIMER] == [];
    assert Visit(Swept(s, []), FIRST_TIMER, s.count, plan).state == r;
  }

  lemma LateImm()
    ensures ImmOk(AtCheck(true, LateStart(), LateSlice()).(imm := {}), AtCheck(true, LateStart(), LateSlice()).imm,
                  LateSlice().imm, SPU_SAMPLE)
  {
  }

  lemma LateSweepAllowed()
    ensures SweepOk(LateAtGate().(next := U32_MAX), LateAtGate().active, LateSlice().plan, SPU_BEAT)
  {
    var s, plan, armed := LateAtGate().(next := U32_MAX), LateSlice().plan, LateAtGate().active;
    SweepSkips(s, armed, s.count, plan, 0, SPU_SAMPLE);
    assert Sweep(s, armed, s.count, plan, SPU_SAMPLE) == Swept(s, []);
    assert s.events[SPU_SAMPLE] > s.count;
    assert plan[FIRST_TIMER] == [];
  }

  /** From a settled state, one slice takes the clock past the threshold with the timer a cycle past the old
      due time, still in the past: the rebase puts its due time off by 2^32 cycles. Only `RebaseOk` excludes
      this slice. */
  lemma LateTimerBreaksRebase()
    ensures Settled(LateStart(), SPU_BEAT) && SliceAllowed(true, LateStart(), LateSlice(), SPU_BEAT)
    ensures var s := AtGate(true, LateStart(), LateSlice()); var w := SweepAll(s, LateSlice().plan).state;
      && !RebaseOk(s, LateSlice().plan) && w.next < w.count && FIRST_TIMER in w.active
      && Rebase(w).DueAt(FIRST_TIMER) == w.DueAt(FIRST_TIMER) + 0x1_0000_0000
  {
    LateSettled();
    LateReachesGate();
    LateImm();
    LateSweepAllowed();
    LateSweep();
  }

  /** `execute_jit`, for as many calls of the scheduler as are made, by it or by the code it executes, before
      the machine is switched off. */
  method ExecuteJit(m: Scheduler, hle: bool, slices: seq<Slice>, ghost b: Beat) returns (ran: seq<Event>)
    requires m.Valid() && b.Ok() && Settled(m.Value(), b) && RunOk(hle, m.Value(), slices, b)
    modifies m, m.events, m.channels
    ensures m.Valid() && Swept(m.Value(), ran) == Run(hle, old(m.Value()), slices)
  {
    ran := [];
    ghost var s0 := m.Value();
    for n := 0 to |slices|
      invariant m.Valid() && Swept(m.Value(), ran) == Run(hle, s0, slices[..n])
    {
      var sl := slices[n];
      RunOkPrefix(hle, s0, slices, n, b);
      RunSettled(hle, s0, slices[..n], b);
      IterateSettled(hle, m.Value(), sl, b);
      var ranNow := ExecuteSlice(m, hle, sl);
      ran := ran + ranNow;
      assert slices[..n + 1][..n] == slices[..n];
    }
    assert slices[..|slices|] == slices;
  }

  lemma RunOkPrefix(hle: bool, s: State, slices: seq<Slice>, n: nat, b: Beat)
    requires n < |slices| && RunOk(hle, s, slices, b)
    ensures RunOk(hle, s, slices[..n], b) && SliceOk(hle, Run(hle, s, slices[..n]).state, slices[n], b)
  {
    assert forall k :: 0 <= k <= n ==> slices[..n][..k] == slices[..k];
  }

  method ExecuteSlice(m: Scheduler, hle: bool, sl: Slice) returns (ran: seq<Event>)
    requires m.Valid() && AtGate(hle, m.Value(), sl).active != {}
    modifies m, m.events, m.channels
    ensures m.Valid() && Swept(m.Value(), ran) == Iterate(hle, old(m.Value()), sl)
  {
    m.RunActions(sl.guest);
    match sl.at {
      case MainLoop => FinishIteration(m, hle, sl);
      case Branch => RunScheduler(m, hle, sl);
      case IdleLoop => RunSchedulerIdleLoop(m, hle, sl);
    }
    var _, r := m.CheckEvents(sl.imm, sl.plan);
    ran := r;
  }

  /** The main loop moves the clock after both processors have executed. */
  method FinishIteration(m: Scheduler, hle: bool, sl: Slice)
    requires m.Valid() && sl.at.MainLoop?
    modifies m`cycleCount
    ensures m.Valid() && m.Value() == Advance(hle, old(m.Value()), sl)
  {
    if hle {
      if sl.halted9After {
        m.JumpToNextEvent();
      } else {
        m.AddCycles(Arm9Cycles(sl));
      }
    } else {
      var cycles := SliceCycles(Arm9Cycles(sl), Arm7Cycles(sl));
      if cycles == 0 {
        m.JumpToNextEvent();
      } else {
        m.AddCycles(cycles);
      }
    }
  }

  /** `run_scheduler`, up to its check of the events: the ARM7 catches up, and both have run. */
  method RunScheduler(m: Scheduler, hle: bool, sl: Slice)
    requires m.Valid() && sl.at.Branch?
    modifies m`cycleCount
    ensures m.Valid() && m.Value() == Advance(hle, old(m.Value()), sl)
  {
    var cycles := Halved(sl.cycles9);
    if !hle {
      cycles := SliceCycles(cycles, Arm7Cycles(sl));
    }
    m.AddCycles(cycles);
  }

  /** `run_scheduler_idle_loop`, up to its check of the events: only the ARM7 has anything to do. */
  method RunSchedulerIdleLoop(m: Scheduler, hle: bool, sl: Slice)
    requires m.Valid() && sl.at.IdleLoop?
    modifies m`cycleCount
    ensures m.Valid() && m.Value() == Advance(hle, old(m.Value()), sl)
  {
    if hle || sl.stopped7 {
      m.JumpToNextEvent();
    } else {
      m.AddCycles(sl.cycles7);
    }
  }

  /** In the two-processor loop the clock advances by the shorter of the runs that happened, and jumps
      when neither processor ran. */
  lemma SliceCyclesIsShortestRun(a: U16, b: U16)
    ensures SliceCycles(a, b) == if a == 0 then b else if b == 0 then a else Min(a, b)
  {
  }
}
