/**
 The state that the event scheduler and the hardware timers share, and what each operation on it
 computes. `CycleManager.dfy` holds the operations as they are programmed; the functions here are
 their specifications, on which `RunLoop.dfy` proves what holds over whole runs.

 Event numbers are the `EventType` discriminants (timer channel n of cpu c is event 3 + 2n + c),
 so a timer is named throughout by its slot 2n + c.
 */
module Emulator {
  import opened Machine

  const EVENT_COUNT := 22
  const IMM_COUNT := 12
  const TIMER_COUNT := 8
  const FIRST_TIMER := 3
  const REBASE_AT := 0x7FFF_FFFF
  const TIME_OVERFLOW := 0x1_0000

  type Event = e: int | 0 <= e < EVENT_COUNT
  type ImmEvent = e: int | 0 <= e < IMM_COUNT
  type Slot = c: int | 0 <= c < TIMER_COUNT
  // The shifts that a prescaler selects.
  type Shift = n: int | n == 0 || n == 6 || n == 8 || n == 10

  datatype Channel = Channel(cntL: U16, cntH: bv16, current: U16, shift: Shift, scheduled: U32)
  {
    predicate Start() { cntH & 0x80 != 0 }
    predicate IrqEnable() { cntH & 0x40 != 0 }
    predicate CountUpBit() { cntH & 4 != 0 }
    /** Channel 0 ignores its count-up bit when it decides whether it runs off the clock. */
    predicate CountUp(c: Slot) { c >= 2 && CountUpBit() }
    predicate Running(c: Slot) { Start() && !CountUp(c) }
    /** Cycles from one overflow to the next with this reload value and shift. */
    function Period(): U32 { ShiftLeft(TIME_OVERFLOW - cntL, shift) }
  }

  /** `base` counts the cycles that rebases have taken off the clock. The program has no such field;
      it is what makes times before and after a rebase comparable. `irqs` counts the overflow interrupts
      that each timer slot has sent. */
  datatype Emu = Emu(count: U32, events: seq<U32>, next: U32, active: set<Event>, imm: set<ImmEvent>,
                     due: U32, channels: seq<Channel>, irqs: seq<nat>, base: nat)
  {
    predicate Shaped() { |events| == EVENT_COUNT && |channels| == TIMER_COUNT && |irqs| == TIMER_COUNT }
    function Now(): int { base + count }
    function DueAt(e: Event): int requires Shaped() { base + events[e] }
  }

  type State = s: Emu | s.Shaped()
    witness Emu(0, seq(EVENT_COUNT, _ => 0), U32_MAX, {}, {}, 0, seq(TIMER_COUNT, _ => Channel(0, 0, 0, 0, 0)),
                seq(TIMER_COUNT, _ => 0), 0)

  /** What guest code and event handlers can do to this state. */
  datatype Action =
    | Schedule(delay: U32, event: Event)
    | ScheduleFromDue(delay: U32, event: Event)
    | ScheduleImm(imm: ImmEvent)
    | SetCntL(slot: Slot, maskL: bv16, valueL: bv16)
    | SetCntH(slot: Slot, maskH: bv16, valueH: bv16)
    | GetCntL(slot: Slot)

  function ShiftLeft(x: int, n: Shift): int {
    if n == 0 then x else if n == 6 then x * 64 else if n == 8 then x * 256 else x * 1024
  }

  function ShiftRight(x: int, n: Shift): int {
    if n == 0 then x else if n == 6 then x / 64 else if n == 8 then x / 256 else x / 1024
  }

  function TimerEvent(c: Slot): Event { FIRST_TIMER + c }

  predicate IsTimer(e: Event) { FIRST_TIMER <= e < FIRST_TIMER + TIMER_COUNT }

  /** Neither actions nor overflows touch the clock or the due cycle being dispatched; they can only arm
      events, and only lower the next event cycle. */
  predicate SameClock(s: State, r: State) {
    r.count == s.count && r.base == s.base && r.due == s.due && s.active <= r.active && r.next <= s.next
  }

  // ---- the scheduler ----

  function Arm(s: State, e: Event, at: U32): State {
    s.(events := s.events[e := at], active := s.active + {e}, next := Min(s.next, at))
  }

  function DoSchedule(s: State, delay: U32, e: Event): State {
    var wanted := if delay < 1 then 1 else delay;
    Arm(s, e, s.count + if U32_MAX - wanted < s.count then U32_MAX - s.count else wanted)
  }

  function DoScheduleFromDue(s: State, delay: U32, e: Event): State {
    Arm(s, e, SaturatingAdd(s.due, delay))
  }

  function AddCycles(s: State, cycles: U16): State { s.(count := WrappingAdd(s.count, cycles)) }

  function Jump(s: State): State { if s.next > s.count then s.(count := s.next) else s }

  // ---- the timers ----

  function Masked(current: bv16, mask: bv16, value: bv16): bv16 { (current & !mask) | (value & mask) }

  function PrescalerShift(cntH: bv16, countUp: bool): Shift {
    if countUp || cntH & 3 == 0 then 0 else if cntH & 3 == 1 then 6 else if cntH & 3 == 2 then 8 else 10
  }

  function MaskedCount(current: U16, mask: bv16, value: bv16): U16 { Masked(current as bv16, mask, value) as U16 }

  function DoSetCntL(s: State, c: Slot, mask: bv16, value: bv16): State {
    s.(channels := s.channels[c := s.channels[c].(cntL := MaskedCount(s.channels[c].cntL, mask, value))])
  }

  /** A channel with its control register written; starting it loads the counter. `masked` is the part
      of the mask that reaches implemented bits. */
  function Written(k: Channel, masked: bv16, value: bv16): Channel {
    var h := Masked(k.cntH, masked, value);
    if !k.Start() && k.(cntH := h).Start() then k.(cntH := h, current := k.cntL) else k.(cntH := h)
  }

  function Reshifted(k: Channel, c: Slot, masked: bv16): Channel {
    if masked != 0 then k.(shift := PrescalerShift(k.cntH, k.CountUp(c))) else k
  }

  /** The channel after a write to its control register, before it is rescheduled. */
  function Reconfigured(k: Channel, c: Slot, mask: bv16, value: bv16): Channel {
    Reshifted(Written(k, mask & 0xC7, value), c, mask & 0xC7)
  }

  /** A write reschedules the channel when it starts it or changes its shift. */
  predicate Updates(k: Channel, c: Slot, mask: bv16, value: bv16) {
    var r := Reconfigured(k, c, mask, value);
    (!k.Start() && r.Start()) || r.shift != k.shift
  }

  function DoSetCntH(s: State, c: Slot, mask: bv16, value: bv16): State {
    var r := Reconfigured(s.channels[c], c, mask, value);
    if Updates(s.channels[c], c, mask, value) && r.Running(c) then
      var remaining := ShiftLeft(TIME_OVERFLOW - r.current, r.shift);
      var k := r.(scheduled := WrappingAdd(s.count, remaining));
      DoSchedule(s.(channels := s.channels[c := k]), remaining, TimerEvent(c))
    else
      s.(channels := s.channels[c := r])
  }

  /** The counter value that a read of a channel leaves in it and returns. */
  function ReadCounter(s: State, c: Slot): U16 {
    var k := s.channels[c];
    if k.Running(c) then (TIME_OVERFLOW - ShiftRight(WrappingSub(k.scheduled, s.count), k.shift)) % 0x1_0000
    else k.current
  }

  function DoGetCntL(s: State, c: Slot): State {
    s.(channels := s.channels[c := s.channels[c].(current := ReadCounter(s, c))])
  }

  /** A running channel that overflows starts over from its reload value, one period after the due
      cycle of the event being dispatched. */
  function Reloaded(s: State, c: Slot): State {
    var k := s.channels[c].(current := s.channels[c].cntL);
    var s1: State :=
      if k.CountUp(c) then s.(channels := s.channels[c := k])
      else DoScheduleFromDue(
          s.(channels := s.channels[c := k.(scheduled := SaturatingAdd(s.due, k.Period()))]),
          k.Period(), TimerEvent(c));
    if k.IrqEnable() then s1.(irqs := s1.irqs[c := s1.irqs[c] + 1]) else s1
  }

  function Ticked(s: State, c: Slot): State {
    s.(channels := s.channels[c := s.channels[c].(current := (s.channels[c].current + 1) % 0x1_0000)])
  }

  /** `timers_overflow`: a channel with its count-up bit set ticks itself after it is reloaded, and passes
      the overflow on if that tick wraps. */
  function Overflow(s: State, c: Slot): (r: State)
    ensures SameClock(s, r)
    decreases TIMER_COUNT - c
  {
    if !s.channels[c].Start() then s else
    var s1 := Reloaded(s, c);
    if c + 2 >= TIMER_COUNT || !s.channels[c].CountUpBit() then s1 else
    var s2 := Ticked(s1, c);
    if s2.channels[c].current == 0 then Overflow(s2, c + 2) else s2
  }

  // ---- actions and dispatch ----

  function Act(s: State, a: Action): (r: State)
    ensures SameClock(s, r)
  {
    match a
    case Schedule(delay, e) => DoSchedule(s, delay, e)
    case ScheduleFromDue(delay, e) => DoScheduleFromDue(s, delay, e)
    case ScheduleImm(i) => s.(imm := s.imm + {i})
    case SetCntL(c, mask, value) => DoSetCntL(s, c, mask, value)
    case SetCntH(c, mask, value) => DoSetCntH(s, c, mask, value)
    case GetCntL(c) => DoGetCntL(s, c)
  }

  function ActAll(s: State, actions: seq<Action>): (r: State)
    ensures SameClock(s, r)
  {
    if actions == [] then s else Act(ActAll(s, actions[..|actions| - 1]), actions[|actions| - 1])
  }

  /** The actions that the handler of each event takes during one check. Ranging over all plans ranges
      over all handlers. */
  type Plan = p: seq<seq<Action>> | |p| == EVENT_COUNT witness seq(EVENT_COUNT, _ => [])
  type ImmPlan = p: seq<seq<Action>> | |p| == IMM_COUNT witness seq(IMM_COUNT, _ => [])

  function Handle(s: State, e: Event, plan: Plan): State {
    ActAll(if IsTimer(e) then Overflow(s, e - FIRST_TIMER) else s, plan[e])
  }

  /** Immediate events below `n` of the snapshot `pending`, in ascending order. */
  function ImmSweep(s: State, pending: set<ImmEvent>, plan: ImmPlan, n: nat): State
    requires n <= IMM_COUNT
  {
    if n == 0 then s else
    var before := ImmSweep(s, pending, plan, n - 1);
    if n - 1 in pending then ActAll(before, plan[n - 1]) else before
  }

  datatype Swept = Swept(state: State, ran: seq<Event>)

  function Visit(w: Swept, e: Event, now: U32, plan: Plan): Swept {
    var s := w.state;
    if s.events[e] <= now then
      Swept(Handle(s.(active := s.active - {e}, due := s.events[e]), e, plan), w.ran + [e])
    else
      Swept(s.(next := Min(s.next, s.events[e])), w.ran)
  }

  /** Timed events below `n` of the snapshot `armed`, in ascending order, and which of them ran. */
  function Sweep(s: State, armed: set<Event>, now: U32, plan: Plan, n: nat): Swept
    requires n <= EVENT_COUNT
  {
    if n == 0 then Swept(s, []) else
    var before := Sweep(s, armed, now, plan, n - 1);
    if n - 1 in armed then Visit(before, n - 1, now, plan) else before
  }

  function RebasedChannel(k: Channel, now: U32): Channel {
    k.(scheduled := if k.scheduled < now then 0 else k.scheduled - now)
  }

  function RebasedChannels(channels: seq<Channel>, now: U32): (r: seq<Channel>)
    requires |channels| == TIMER_COUNT
    ensures |r| == TIMER_COUNT
  {
    seq(TIMER_COUNT, i requires 0 <= i < TIMER_COUNT => RebasedChannel(channels[i], now))
  }

  function RebasedEvent(at: U32, active: bool, now: U32): U32 { if active then WrappingSub(at, now) else at }

  function RebasedEvents(events: seq<U32>, active: set<Event>, now: U32): (r: seq<U32>)
    requires |events| == EVENT_COUNT
    ensures |r| == EVENT_COUNT
  {
    seq(EVENT_COUNT, i requires 0 <= i < EVENT_COUNT => RebasedEvent(events[i], i in active, now))
  }

  function Restarted(s: State): State { s.(next := WrappingSub(s.next, s.count), count := 0, base := s.base + s.count) }

  /** `cm_on_overflow_event`: the clock restarts at zero and everything measured by it moves back. */
  function Rebase(s: State): State {
    Restarted(s.(events := RebasedEvents(s.events, s.active, s.count),
                 channels := RebasedChannels(s.channels, s.count)))
  }

  function AfterImm(s: State, immPlan: ImmPlan): State {
    ImmSweep(s.(imm := {}), s.imm, immPlan, IMM_COUNT)
  }

  predicate GateOpen(s: State) { s.count >= s.next }

  function SweepAll(s: State, plan: Plan): Swept {
    Sweep(s.(next := U32_MAX), s.active, s.count, plan, EVENT_COUNT)
  }

  /** `cm_check_events`. */
  function Check(s: State, immPlan: ImmPlan, plan: Plan): Swept {
    var s1 := AfterImm(s, immPlan);
    if !GateOpen(s1) then Swept(s1, []) else
    var w := SweepAll(s1, plan);
    if s1.count > REBASE_AT then Swept(Rebase(w.state), w.ran) else w
  }
}
