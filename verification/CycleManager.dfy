/**
 The event scheduler and the timers as they are programmed: fields updated in place, active events in
 the bits of a word that the dispatch loops scan by leading zeros. Each method computes the function
 of `Emulator.dfy` that its postcondition names.
 */
module CycleManager {
  import opened Machine
  import opened Emulator

  /** A u32 written out as its bits, most significant first: bit `31 - i` of the word is `m[i]`. */
  type Mask = m: seq<bool> | |m| == 32 witness seq(32, _ => false)

  const EMPTY: Mask := seq(32, _ => false)

  function LeadingZeros(m: Mask): (n: nat)
    ensures n <= 32
    ensures forall k :: 0 <= k < n ==> !m[k]
    ensures n < 32 ==> m[n]
  {
    LeadingZerosFrom(m, 0)
  }

  function LeadingZerosFrom(m: Mask, from: nat): (n: nat)
    requires from <= 32
    ensures from <= n <= 32
    ensures forall k :: from <= k < n ==> !m[k]
    ensures n < 32 ==> m[n]
    decreases 32 - from
  {
    if from == 32 || m[from] then from else LeadingZerosFrom(m, from + 1)
  }

  predicate IsZero(m: Mask) { forall k :: 0 <= k < 32 ==> !m[k] }

  function ShiftUp(m: Mask, n: nat): Mask
    requires n <= 32
  {
    m[n..] + seq(n, _ => false)
  }

  ghost function Ones(m: Mask, n: nat): set<int>
    requires n <= 32
  {
    set i | 0 <= i < n && m[i]
  }

  ghost predicate NoneFrom(m: Mask, n: nat)
  {
    forall i :: n <= i < 32 ==> !m[i]
  }

  ghost predicate NoneBetween(ones: set<int>, m: nat, n: nat) { forall i :: m <= i < n ==> i !in ones }

  lemma ScanStart(whole: Mask, n: nat)
    requires n <= 32
    ensures ShiftUp(whole, 0) == whole
    ensures Ones(whole, n) != {} ==> !IsZero(whole)
  {
  }

  // One round of a dispatch loop: the next set bit of the word it started from, and what is left.
  method TakeLeading(ghost whole: Mask, ghost n: nat, mask: Mask, offset: nat) returns (index: nat, rest: Mask)
    requires offset <= n <= 32 && NoneFrom(whole, n)
    requires mask == ShiftUp(whole, offset) && !IsZero(mask)
    ensures offset <= index < n && index in Ones(whole, n)
    ensures NoneBetween(Ones(whole, n), offset, index)
    ensures rest == ShiftUp(whole, index + 1)
  {
    var zeros := LeadingZeros(mask);
    index := zeros + offset;
    forall i | offset <= i < index && i < 32
      ensures !whole[i]
    {
      var k := i - offset;
      assert !mask[k];
    }
    rest := ShiftUp(mask, zeros + 1);
    assert rest == ShiftUp(whole, index + 1);
  }

  lemma ScanDone(whole: Mask, offset: nat, n: nat)
    requires offset <= n <= 32 && IsZero(ShiftUp(whole, offset))
    ensures NoneBetween(Ones(whole, n), offset, n)
  {
    var mask := ShiftUp(whole, offset);
    forall i | offset <= i < n
      ensures !whole[i]
    {
      var k := i - offset;
      assert !mask[k];
    }
  }

  // Indices outside the snapshot add nothing, so the scan may jump over them.
  lemma ImmSweepSkips(s: State, pending: set<ImmEvent>, plan: ImmPlan, m: nat, n: nat)
    requires m <= n <= IMM_COUNT
    requires NoneBetween(pending, m, n)
    ensures ImmSweep(s, pending, plan, n) == ImmSweep(s, pending, plan, m)
    decreases n
  {
    if m < n { ImmSweepSkips(s, pending, plan, m, n - 1); }
  }

  lemma SweepSkips(s: State, armed: set<Event>, now: U32, plan: Plan, m: nat, n: nat)
    requires m <= n <= EVENT_COUNT
    requires NoneBetween(armed, m, n)
    ensures Sweep(s, armed, now, plan, n) == Sweep(s, armed, now, plan, m)
    decreases n
  {
    if m < n { SweepSkips(s, armed, now, plan, m, n - 1); }
  }

  class Scheduler {
    var cycleCount: U32
    const events: array<U32>
    var nextEventCycle: U32
    var activeEvents: Mask
    var activeImmEvents: Mask
    var currentEventDue: U32
    const channels: array<Channel>
    var irqs: seq<nat>
    ghost var base: nat

    ghost predicate Valid()
      reads this
    {
      && events.Length == EVENT_COUNT && channels.Length == TIMER_COUNT && |irqs| == TIMER_COUNT
      && NoneFrom(activeEvents, EVENT_COUNT) && NoneFrom(activeImmEvents, IMM_COUNT)
    }

    ghost function Value(): State
      requires Valid()
      reads this, events, channels
    {
      Emu(cycleCount, events[..], nextEventCycle, Ones(activeEvents, EVENT_COUNT), Ones(activeImmEvents, IMM_COUNT),
          currentEventDue, channels[..], irqs, base)
    }

    constructor ()
      ensures Valid() && fresh(events) && fresh(channels)
      ensures Value() == Emu(0, seq(EVENT_COUNT, _ => 0), U32_MAX, {}, {}, 0,
                             seq(TIMER_COUNT, _ => Channel(0, 0, 0, 0, 0)), seq(TIMER_COUNT, _ => 0), 0)
    {
      cycleCount, nextEventCycle, currentEventDue, irqs, base := 0, U32_MAX, 0, seq(TIMER_COUNT, _ => 0), 0;
      activeEvents, activeImmEvents := EMPTY, EMPTY;
      events := new U32[EVENT_COUNT](_ => 0);
      channels := new Channel[TIMER_COUNT](_ => Channel(0, 0, 0, 0, 0));
    }

    method AddCycles(cycles: U16)
      requires Valid()
      modifies this`cycleCount
      ensures Valid() && Value() == Emulator.AddCycles(old(Value()), cycles)
    {
      cycleCount := WrappingAdd(cycleCount, cycles);
    }

    method ScheduleImm(i: ImmEvent)
      requires Valid()
      modifies this`activeImmEvents
      ensures Valid() && Value() == Act(old(Value()), Action.ScheduleImm(i))
    {
      activeImmEvents := activeImmEvents[i := true];
      assert Ones(activeImmEvents, IMM_COUNT) == old(Ones(activeImmEvents, IMM_COUNT)) + {i};
    }

    method ArmAt(at: U32, e: Event)
      requires Valid()
      modifies this`activeEvents, this`nextEventCycle, events
      ensures Valid() && Value() == Arm(old(Value()), e, at)
    {
      events[e] := at;
      activeEvents := activeEvents[e := true];
      assert Ones(activeEvents, EVENT_COUNT) == old(Ones(activeEvents, EVENT_COUNT)) + {e};
      if at < nextEventCycle {
        nextEventCycle := at;
      }
    }

    method Schedule(delay: U32, e: Event)
      requires Valid()
      modifies this`activeEvents, this`nextEventCycle, events
      ensures Valid() && Value() == DoSchedule(old(Value()), delay, e)
    {
      var inCycles := if delay < 1 then 1 else delay;
      if U32_MAX - inCycles < cycleCount {
        inCycles := U32_MAX - cycleCount;
      }
      ArmAt(cycleCount + inCycles, e);
    }

    method ScheduleFromDue(delay: U32, e: Event)
      requires Valid()
      modifies this`activeEvents, this`nextEventCycle, events
      ensures Valid() && Value() == DoScheduleFromDue(old(Value()), delay, e)
    {
      ArmAt(SaturatingAdd(currentEventDue, delay), e);
    }

    method JumpToNextEvent()
      requires Valid()
      modifies this`cycleCount
      ensures Valid() && Value() == Jump(old(Value()))
    {
      if nextEventCycle > cycleCount {
        cycleCount := nextEventCycle;
      }
    }

    method TimersGetCntL(c: Slot) returns (value: U16)
      requires Valid()
      modifies channels
      ensures Valid() && Value() == DoGetCntL(old(Value()), c) && value == ReadCounter(old(Value()), c)
    {
      var k := channels[c];
      if k.Running(c) {
        var diff := WrappingSub(k.scheduled, cycleCount);
        channels[c] := k.(current := (TIME_OVERFLOW - ShiftRight(diff, k.shift)) % 0x1_0000);
      }
      value := channels[c].current;
    }

    method TimersSetCntL(c: Slot, mask: bv16, value: bv16)
      requires Valid()
      modifies channels
      ensures Valid() && Value() == DoSetCntL(old(Value()), c, mask, value)
    {
      Store(c, channels[c].(cntL := MaskedCount(channels[c].cntL, mask, value)));
    }

    method Store(c: Slot, channel: Channel)
      requires Valid()
      modifies channels
      ensures Valid() && Value() == old(Value()).(channels := old(Value()).channels[c := channel])
    {
      channels[c] := channel;
    }

    static method Reconfigure(before: Channel, c: Slot, mask: bv16, value: bv16)
        returns (channel: Channel, update: bool)
      ensures channel == Reconfigured(before, c, mask, value)
      ensures update == Updates(before, c, mask, value)
    {
      var masked := mask & 0xC7;
      channel := before.(cntH := Masked(before.cntH, masked, value));
      update := !before.Start() && channel.Start();
      if update {
        channel := channel.(current := channel.cntL);
      }
      assert channel == Written(before, masked, value);
      if masked != 0 {
        var shift := PrescalerShift(channel.cntH, channel.CountUp(c));
        if channel.shift != shift {
          channel := channel.(shift := shift);
          update := true;
        }
      }
    }

    method TimersSetCntH(c: Slot, mask: bv16, value: bv16)
      requires Valid()
      modifies this`activeEvents, this`nextEventCycle, events, channels
      ensures Valid() && Value() == DoSetCntH(old(Value()), c, mask, value)
    {
      var channel, update := Reconfigure(channels[c], c, mask, value);
      if update && channel.Running(c) {
        var remaining := ShiftLeft(TIME_OVERFLOW - channel.current, channel.shift);
        Store(c, channel.(scheduled := WrappingAdd(cycleCount, remaining)));
        Schedule(remaining, TimerEvent(c));
      } else {
        Store(c, channel);
      }
    }

    method TimersOverflow(c: Slot)
      requires Valid()
      modifies this`activeEvents, this`nextEventCycle, this`irqs, events, channels
      ensures Valid() && Value() == Overflow(old(Value()), c)
      decreases TIMER_COUNT - c
    {
      if !channels[c].Start() {
        return;
      }
      Reload(c);
      var channel := channels[c];
      if c + 2 < TIMER_COUNT && channel.CountUpBit() {
        channel := channel.(current := (channel.current + 1) % 0x1_0000);
        Store(c, channel);
        if channel.current == 0 {
          TimersOverflow(c + 2);
        }
      }
    }

    method Reload(c: Slot)
      requires Valid()
      modifies this`activeEvents, this`nextEventCycle, this`irqs, events, channels
      ensures Valid() && Value() == Reloaded(old(Value()), c)
    {
      var channel := channels[c].(current := channels[c].cntL);
      if !channel.CountUp(c) {
        var remaining := ShiftLeft(TIME_OVERFLOW - channel.current, channel.shift);
        channel := channel.(scheduled := SaturatingAdd(currentEventDue, remaining));
        Store(c, channel);
        ScheduleFromDue(remaining, TimerEvent(c));
      } else {
        Store(c, channel);
      }
      if channel.IrqEnable() {
        irqs := irqs[c := irqs[c] + 1];
      }
    }

    method RunActions(actions: seq<Action>)
      requires Valid()
      modifies this`activeEvents, this`activeImmEvents, this`nextEventCycle, events, channels
      ensures Valid() && Value() == ActAll(old(Value()), actions)
    {
      for n := 0 to |actions|
        invariant Valid() && Value() == ActAll(old(Value()), actions[..n])
      {
        match actions[n] {
          case Schedule(delay, e) => Schedule(delay, e);
          case ScheduleFromDue(delay, e) => ScheduleFromDue(delay, e);
          case ScheduleImm(i) => ScheduleImm(i);
          case SetCntL(c, mask, value) => TimersSetCntL(c, mask, value);
          case SetCntH(c, mask, value) => TimersSetCntH(c, mask, value);
          case GetCntL(c) => var _ := TimersGetCntL(c);
        }
        assert actions[..n + 1][..n] == actions[..n];
      }
      assert actions[..|actions|] == actions;
    }

    /** The timed dispatch loop tests its mask only after the first round, so it must not be entered
        with no event active. */
    method CheckEvents(immPlan: ImmPlan, plan: Plan) returns (passed: bool, ran: seq<Event>)
      requires Valid()
      requires GateOpen(AfterImm(Value(), immPlan)) ==> AfterImm(Value(), immPlan).active != {}
      modifies this, events, channels
      ensures Valid() && Swept(Value(), ran) == Check(old(Value()), immPlan, plan)
      ensures passed == GateOpen(AfterImm(old(Value()), immPlan))
    {
      DispatchImm(immPlan);
      ran := [];
      if cycleCount < nextEventCycle {
        return false, [];
      }
      ran := DispatchTimed(plan);
      if cycleCount > REBASE_AT {
        OnOverflowEvent();
      }
      passed := true;
    }

    method DispatchImm(plan: ImmPlan)
      requires Valid()
      modifies this`activeEvents, this`activeImmEvents, this`nextEventCycle, events, channels
      ensures Valid() && Value() == AfterImm(old(Value()), plan)
    {
      ghost var pending := Ones(activeImmEvents, IMM_COUNT);
      var mask := activeImmEvents;
      ScanStart(mask, IMM_COUNT);
      activeImmEvents := EMPTY;
      ghost var s0 := Value();
      assert s0 == old(Value()).(imm := {});
      var offset := 0;
      while !IsZero(mask)
        invariant Valid() && offset <= IMM_COUNT
        invariant mask == ShiftUp(old(activeImmEvents), offset)
        invariant Value() == ImmSweep(s0, pending, plan, offset)
        decreases IMM_COUNT - offset
      {
        var index, rest := TakeLeading(old(activeImmEvents), IMM_COUNT, mask, offset);
        ImmSweepSkips(s0, pending, plan, offset, index);
        RunActions(plan[index]);
        mask, offset := rest, index + 1;
      }
      ScanDone(old(activeImmEvents), offset, IMM_COUNT);
      ImmSweepSkips(s0, pending, plan, offset, IMM_COUNT);
    }

    method DispatchTimed(plan: Plan) returns (ran: seq<Event>)
      requires Valid() && Value().active != {}
      modifies this`activeEvents, this`activeImmEvents, this`nextEventCycle, this`currentEventDue, this`irqs
      modifies events, channels
      ensures Valid() && Swept(Value(), ran) == SweepAll(old(Value()), plan)
    {
      ScanStart(activeEvents, EVENT_COUNT);
      nextEventCycle := U32_MAX;
      ran := ScanEvents(activeEvents, cycleCount, plan);
    }

    method ScanNext(ghost s0: State, ghost armed: Mask, now: U32, plan: Plan, mask: Mask, offset: nat, ran: seq<Event>)
        returns (rest: Mask, next: nat, ranNext: seq<Event>)
      requires Valid() && NoneFrom(armed, EVENT_COUNT)
      requires offset <= EVENT_COUNT && mask == ShiftUp(armed, offset) && !IsZero(mask)
      requires Swept(Value(), ran) == Sweep(s0, Ones(armed, EVENT_COUNT), now, plan, offset)
      modifies this`activeEvents, this`activeImmEvents, this`nextEventCycle, this`currentEventDue, this`irqs
      modifies events, channels
      ensures Valid() && offset < next <= EVENT_COUNT && rest == ShiftUp(armed, next)
      ensures Swept(Value(), ranNext) == Sweep(s0, Ones(armed, EVENT_COUNT), now, plan, next)
    {
      var index, left := TakeLeading(armed, EVENT_COUNT, mask, offset);
      SweepSkips(s0, Ones(armed, EVENT_COUNT), now, plan, offset, index);
      var due := VisitEvent(index, now, plan);
      rest, next, ranNext := left, index + 1, if due then ran + [index] else ran;
    }

    method ScanEvents(armed: Mask, now: U32, plan: Plan) returns (ran: seq<Event>)
      requires Valid() && NoneFrom(armed, EVENT_COUNT) && !IsZero(armed)
      modifies this`activeEvents, this`activeImmEvents, this`nextEventCycle, this`currentEventDue, this`irqs
      modifies events, channels
      ensures Valid() && Swept(Value(), ran) == Sweep(old(Value()), Ones(armed, EVENT_COUNT), now, plan, EVENT_COUNT)
    {
      ghost var s0, ones := Value(), Ones(armed, EVENT_COUNT);
      ScanStart(armed, EVENT_COUNT);
      var mask, offset, more := armed, 0, true;
      ran := [];
      while more
        invariant Valid() && offset <= EVENT_COUNT
        invariant mask == ShiftUp(armed, offset) && more == !IsZero(mask)
        invariant Swept(Value(), ran) == Sweep(s0, ones, now, plan, offset)
        decreases EVENT_COUNT - offset, more
      {
        mask, offset, ran := ScanNext(s0, armed, now, plan, mask, offset, ran);
        more := !IsZero(mask);
      }
      ScanDone(armed, offset, EVENT_COUNT);
      SweepSkips(s0, ones, now, plan, offset, EVENT_COUNT);
    }

    method VisitEvent(e: Event, now: U32, plan: Plan) returns (due: bool)
      requires Valid()
      modifies this`activeEvents, this`activeImmEvents, this`nextEventCycle, this`currentEventDue, this`irqs
      modifies events, channels
      ensures Valid() && due == (old(Value()).events[e] <= now)
      ensures forall ran ::
                Swept(Value(), if due then ran + [e] else ran) == Visit(Swept(old(Value()), ran), e, now, plan)
    {
      var cycle := events[e];
      due := cycle <= now;
      if due {
        activeEvents := activeEvents[e := false];
        assert Ones(activeEvents, EVENT_COUNT) == old(Ones(activeEvents, EVENT_COUNT)) - {e};
        currentEventDue := cycle;
        if IsTimer(e) {
          TimersOverflow(e - FIRST_TIMER);
        }
        RunActions(plan[e]);
      } else if cycle < nextEventCycle {
        nextEventCycle := cycle;
      }
    }

    method OnOverflowEvent()
      requires Valid()
      modifies this`cycleCount, this`nextEventCycle, this`base, events, channels
      ensures Valid() && Value() == Rebase(old(Value()))
    {
      RebaseEvents();
      RebaseChannels();
      RestartClock();
    }

    method RestartClock()
      requires Valid()
      modifies this`cycleCount, this`nextEventCycle, this`base
      ensures Valid() && Value() == Restarted(old(Value()))
    {
      nextEventCycle := WrappingSub(nextEventCycle, cycleCount);
      base := base + cycleCount;
      cycleCount := 0;
    }

    method RebaseEvents()
      requires Valid()
      modifies events
      ensures Valid()
      ensures Value() == old(Value()).(events := RebasedEvents(old(Value()).events, old(Value()).active, cycleCount))
    {
      for i := 0 to EVENT_COUNT
        invariant forall j :: 0 <= j < EVENT_COUNT ==>
                    events[j] == if j < i then RebasedEvent(old(events[j]), activeEvents[j], cycleCount)
                                 else old(events[j])
      {
        if activeEvents[i] {
          events[i] := WrappingSub(events[i], cycleCount);
        }
      }
    }

    method RebaseChannels()
      requires Valid()
      modifies channels
      ensures Valid()
      ensures Value() == old(Value()).(channels := RebasedChannels(old(Value()).channels, cycleCount))
    {
      for c := 0 to TIMER_COUNT
        invariant forall j :: 0 <= j < TIMER_COUNT ==>
                    channels[j] == if j < c then RebasedChannel(old(channels[j]), cycleCount) else old(channels[j])
      {
        channels[c] := RebasedChannel(channels[c], cycleCount);
      }
    }
  }
}
