/**
 What a write to a timer's registers does, in the bits and cycles of the hardware: when a started timer first
 overflows, and from there, over any run, when it does for the k-th time.
 */
module TimerEffects {
  import opened Machine
  import opened Emulator
  import opened RunLoop
  import opened TimerGrid

  /** Cycles from one tick to the next, by the two prescaler bits of the control register. */
  function TickCycles(control: bv16): int {
    if control & 3 == 0 then 1 else if control & 3 == 1 then 64 else if control & 3 == 2 then 256 else 1024
  }

  /** A bit that a write takes from the value if the mask has it, and leaves otherwise. */
  predicate Takes(after: bv16, before: bv16, mask: bv16, value: bv16, b: bv16) {
    (after & b != 0) == if mask & b != 0 then value & b != 0 else before & b != 0
  }

  /** The bits that the control register has: prescaler, count-up, interrupt and start. */
  predicate ControlBit(b: bv16) { b == 0x1 || b == 0x2 || b == 0x4 || b == 0x40 || b == 0x80 }

  lemma ControlAfter(s: State, c: Slot, mask: bv16, value: bv16)
    ensures DoSetCntH(s, c, mask, value).channels[c].cntH == Masked(s.channels[c].cntH, mask & 0xC7, value)
  {
    ReconfiguredControl(s.channels[c], c, mask, value);
    ChannelAfter(s, c, mask, value, Reconfigured(s.channels[c], c, mask, value));
  }

  lemma ChannelAfter(s: State, c: Slot, mask: bv16, value: bv16, r: Channel)
    requires r == Reconfigured(s.channels[c], c, mask, value)
    ensures var k := DoSetCntH(s, c, mask, value).channels[c]; k == r.(scheduled := k.scheduled)
  {
  }

  lemma MaskedTakes(before: bv16, mask: bv16, value: bv16, b: bv16)
    requires ControlBit(b)
    ensures Takes(Masked(before, mask & 0xC7, value), before, mask, value, b)
  {
  }

  lemma MaskedKeeps(before: bv16, mask: bv16, value: bv16)
    ensures Masked(before, mask & 0xC7, value) & 0xFF38 == before & 0xFF38
  {
  }

  /** A control write takes the bits there are from the value under the mask, and changes no other. */
  lemma ControlTakesBits(s: State, c: Slot, mask: bv16, value: bv16, b: bv16)
    requires ControlBit(b)
    ensures var before, after := s.channels[c].cntH, DoSetCntH(s, c, mask, value).channels[c].cntH;
      Takes(after, before, mask, value, b) && after & 0xFF38 == before & 0xFF38
  {
    ControlAfter(s, c, mask, value);
    MaskedTakes(s.channels[c].cntH, mask, value, b);
    MaskedKeeps(s.channels[c].cntH, mask, value);
  }

  /** The channel is started and counts cycles, not overflows; the first of each processor always does. */
  predicate CountsCycles(control: bv16, c: Slot) { control & 0x80 != 0 && (c < 2 || control & 4 == 0) }

  lemma ShiftIsFactor(x: int, control: bv16)
    ensures ShiftLeft(x, PrescalerShift(control, false)) == x * TickCycles(control)
  {
  }

  lemma StartLoads(k: Channel, c: Slot, mask: bv16, value: bv16)
    requires k.cntH & 0x80 == 0 && CountsCycles(Reconfigured(k, c, mask, value).cntH, c)
    ensures var r := Reconfigured(k, c, mask, value);
      && r.current == k.cntL && r.cntL == k.cntL && r.shift == PrescalerShift(r.cntH, false)
      && Updates(k, c, mask, value) && r.Running(c)
  {
    if mask & 0xC7 == 0 {
      NothingMasked(k.cntH, mask & 0xC7, value);
    }
  }

  /** The period of a channel by its registers. */
  function PeriodOf(cntL: U16, control: bv16): int { (0x1_0000 - cntL) * TickCycles(control) }

  lemma PeriodBounds(cntL: U16, control: bv16)
    ensures 1 <= PeriodOf(cntL, control) <= 0x400_0000
  {
  }

  /** A write that starts a stopped channel, which then counts cycles: its counter is loaded from the reload value,
      and its overflow is due after as many ticks as are left to count, of 1, 64, 256 or 1024 cycles. */
  lemma StartArms(s: State, c: Slot, mask: bv16, value: bv16)
    requires s.channels[c].cntH & 0x80 == 0 && s.count <= CLOCK_LIMIT
    requires CountsCycles(DoSetCntH(s, c, mask, value).channels[c].cntH, c)
    ensures var t := DoSetCntH(s, c, mask, value); var k := t.channels[c];
      && k.current == k.cntL == s.channels[c].cntL
      && 3 + c in t.active && t.events[3 + c] == k.scheduled == s.count + PeriodOf(k.cntL, k.cntH)
      && t.count == s.count && t.base == s.base && t.irqs == s.irqs
  {
    var r := Reconfigured(s.channels[c], c, mask, value);
    ControlAfter(s, c, mask, value);
    ReconfiguredControl(s.channels[c], c, mask, value);
    StartLoads(s.channels[c], c, mask, value);
    ShiftIsFactor(0x1_0000 - r.current, r.cntH);
    PeriodBounds(r.cntL, r.cntH);
    StartSchedules(s, c, mask, value, r, PeriodOf(r.cntL, r.cntH));
  }

  lemma ReconfiguredControl(k: Channel, c: Slot, mask: bv16, value: bv16)
    ensures Reconfigured(k, c, mask, value).cntH == Masked(k.cntH, mask & 0xC7, value)
    ensures Reconfigured(k, c, mask, value).cntL == k.cntL && Reconfigured(k, c, mask, value).scheduled == k.scheduled
  {
  }

  lemma StartSchedules(s: State, c: Slot, mask: bv16, value: bv16, r: Channel, remaining: U32)
    requires r == Reconfigured(s.channels[c], c, mask, value) && r.Running(c) && Updates(s.channels[c], c, mask, value)
    requires remaining == ShiftLeft(0x1_0000 - r.current, r.shift) && 1 <= remaining && s.count + remaining <= U32_MAX
    ensures var t, k := DoSetCntH(s, c, mask, value), r.(scheduled := s.count + remaining);
      && t == s.(channels := s.channels[c := k], events := s.events[3 + c := s.count + remaining],
                 active := s.active + {3 + c}, next := Min(s.next, s.count + remaining))
  {
  }

  /** The shift a channel counts with is the one its prescaler bits select. */
  predicate SameRate(shift: Shift, control: bv16) {
    shift == if control & 3 == 0 then 0 else if control & 3 == 1 then 6 else if control & 3 == 2 then 8 else 10
  }

  /** A write that leaves a started channel counting cycles with the prescaler it had reschedules nothing; one that
      changes the prescaler makes the overflow due again, after the ticks the counter then has left. */
  lemma PrescalerReschedules(s: State, c: Slot, mask: bv16, value: bv16)
    requires s.count <= CLOCK_LIMIT && s.channels[c].cntH & 0x80 != 0
    requires CountsCycles(DoSetCntH(s, c, mask, value).channels[c].cntH, c)
    ensures var t, k := DoSetCntH(s, c, mask, value), s.channels[c]; var control := t.channels[c].cntH;
      if mask & 0xC7 == 0 || SameRate(k.shift, control) then
        && t == s.(channels := s.channels[c := k.(cntH := control)])
      else
        && 3 + c in t.active && t.channels[c].current == k.current
        && t.events[3 + c] == t.channels[c].scheduled == s.count + (0x1_0000 - k.current) * TickCycles(control)
  {
    var k := s.channels[c];
    var r := Reconfigured(k, c, mask, value);
    ReconfiguredControl(k, c, mask, value);
    ControlAfter(s, c, mask, value);
    KeptCounter(k, c, mask, value);
    if Updates(k, c, mask, value) {
      ShiftIsFactor(0x1_0000 - r.current, r.cntH);
      PeriodBounds(r.current, r.cntH);
      StartSchedules(s, c, mask, value, r, PeriodOf(r.current, r.cntH));
    } else {
      assert r == k.(cntH := r.cntH);
    }
  }

  lemma KeptCounter(k: Channel, c: Slot, mask: bv16, value: bv16)
    requires k.cntH & 0x80 != 0 && CountsCycles(Reconfigured(k, c, mask, value).cntH, c)
    ensures var r := Reconfigured(k, c, mask, value);
      && r.current == k.current
      && r.shift == (if mask & 0xC7 == 0 then k.shift else PrescalerShift(r.cntH, false))
      && Updates(k, c, mask, value) == (r.shift != k.shift)
  {
  }

  /** A write after which the channel does not count cycles schedules nothing; starting it loads its counter. */
  lemma QuietWrite(s: State, c: Slot, mask: bv16, value: bv16)
    requires !CountsCycles(DoSetCntH(s, c, mask, value).channels[c].cntH, c)
    ensures var t, k := DoSetCntH(s, c, mask, value), s.channels[c];
      && t == s.(channels := s.channels[c := t.channels[c]])
      && t.channels[c].current == (if k.cntH & 0x80 == 0 && t.channels[c].cntH & 0x80 != 0 then k.cntL else k.current)
      && t.channels[c].cntL == k.cntL && t.channels[c].scheduled == k.scheduled
  {
    ControlAfter(s, c, mask, value);
    ReconfiguredControl(s.channels[c], c, mask, value);
  }

  // ---- the reload value and the counter ----

  predicate OneBit(b: bv16) { b != 0 && b & (b - 1) == 0 }

  lemma MaskedBit(before: bv16, mask: bv16, value: bv16, b: bv16)
    requires OneBit(b)
    ensures Takes(Masked(before, mask, value), before, mask, value, b)
  {
    assert mask & b == 0 || mask & b == b;
  }

  lemma CountIsMasked(before: U16, mask: bv16, value: bv16, after: bv16)
    requires after == MaskedCount(before, mask, value) as bv16
    ensures after == Masked(before as bv16, mask, value)
  {
  }

  /** A write to the reload value takes every bit from the value if the mask has it, and changes nothing else: a
      running counter goes on to its overflow. `was` and `is` are the reload values as their bits. */
  lemma ReloadTakesBits(s: State, c: Slot, mask: bv16, value: bv16, was: bv16, is_: bv16, b: bv16)
    requires OneBit(b) && was == s.channels[c].cntL as bv16
    requires is_ == DoSetCntL(s, c, mask, value).channels[c].cntL as bv16
    ensures Takes(is_, was, mask, value, b)
  {
    CountIsMasked(s.channels[c].cntL, mask, value, is_);
    MaskedBit(was, mask, value, b);
  }

  lemma ReloadWriteKeeps(s: State, c: Slot, mask: bv16, value: bv16)
    ensures var t := DoSetCntL(s, c, mask, value);
      t == s.(channels := s.channels[c := s.channels[c].(cntL := t.channels[c].cntL)])
  {
  }

  /** Reading a counter that does not count cycles gives what is stored and changes nothing. Reading one that does
      stores what is read, and changes nothing else. */
  lemma ReadKeeps(s: State, c: Slot)
    ensures var t, k := DoGetCntL(s, c), s.channels[c];
      && t == s.(channels := s.channels[c := k.(current := ReadCounter(s, c))])
      && (!CountsCycles(k.cntH, c) ==> ReadCounter(s, c) == k.current && t == s)
  {
    assert s.channels[c].(current := s.channels[c].current) == s.channels[c];
    assert s.channels[c := s.channels[c]] == s.channels;
  }

  // ---- overflows ----

  /** A channel with its count-up bit ticks itself after it is reloaded; if that takes it around, the overflow goes
      on to the next channel of the processor. The last channel passes nothing on. */
  predicate Ticks(k: Channel, c: Slot) { c < 6 && k.cntH & 4 != 0 }

  function CounterAfter(k: Channel, c: Slot): int { if Ticks(k, c) then (k.cntL + 1) % 0x1_0000 else k.cntL }

  function IrqsAfter(s: State, c: Slot): seq<nat> {
    if s.channels[c].cntH & 0x40 != 0 then s.irqs[c := s.irqs[c] + 1] else s.irqs
  }

  /** The state in which a started channel has overflowed, before it passes anything on: reloaded and perhaps
      ticked, its interrupt sent if it is enabled, and due again one period after it was due if it counts cycles. */
  ghost predicate Restarted(s: State, t: State, c: Slot) {
    var k := s.channels[c];
    && t.irqs == IrqsAfter(s, c) && t.count == s.count && t.base == s.base && t.due == s.due && t.imm == s.imm
    && if CountsCycles(k.cntH, c) then
         var at: int := if s.due + PeriodAt(k) > U32_MAX then U32_MAX else s.due + PeriodAt(k);
         && t.channels == s.channels[c := k.(current := CounterAfter(k, c), scheduled := at)]
         && t.events == s.events[3 + c := at] && t.active == s.active + {3 + c}
         && t.next == if at < s.next then at else s.next
       else
         && t.channels == s.channels[c := k.(current := CounterAfter(k, c))]
         && t.events == s.events && t.active == s.active && t.next == s.next
  }

  /** The period by the shift that a channel counts with. */
  function PeriodAt(k: Channel): int {
    (0x1_0000 - k.cntL) * if k.shift == 0 then 1 else if k.shift == 6 then 64 else if k.shift == 8 then 256 else 1024
  }

  lemma PeriodIsProduct(k: Channel)
    ensures k.Period() == PeriodAt(k) <= 0x400_0000
  {
  }

  lemma ReloadRestarts(s: State, c: Slot)
    requires s.channels[c].cntH & 0x80 != 0 && !Ticks(s.channels[c], c)
    ensures Restarted(s, Reloaded(s, c), c)
  {
    PeriodIsProduct(s.channels[c]);
  }

  lemma TickRestarts(s: State, c: Slot)
    requires s.channels[c].cntH & 0x80 != 0 && Ticks(s.channels[c], c)
    ensures Restarted(s, Ticked(Reloaded(s, c), c), c)
  {
    PeriodIsProduct(s.channels[c]);
  }

  /** What an overflow does: nothing to a stopped channel; a started one restarts, and passes on exactly if it ticks
      from the largest reload value. */
  lemma OverflowRestarts(s: State, c: Slot) returns (t: State)
    ensures if s.channels[c].cntH & 0x80 == 0 then t == s == Overflow(s, c) else Restarted(s, t, c)
    ensures s.channels[c].cntH & 0x80 != 0 ==>
      Overflow(s, c) == if Ticks(s.channels[c], c) && s.channels[c].cntL == 0xFFFF then Overflow(t, c + 2) else t
  {
    if s.channels[c].cntH & 0x80 == 0 {
      t := s;
    } else if Ticks(s.channels[c], c) {
      t := Ticked(Reloaded(s, c), c);
      TickRestarts(s, c);
      assert t.channels[c].current == CounterAfter(s.channels[c], c);
    } else {
      t := Reloaded(s, c);
      ReloadRestarts(s, c);
    }
  }

  // ---- over a run ----

  /** Right after the write that starts it, a timer is on the grid of its period, first due one period after the
      write. */
  lemma StartIsOnGrid(s: State, c: Slot, mask: bv16, value: bv16)
    requires s.channels[c].cntH & 0x80 == 0 && s.count <= CLOCK_LIMIT
    requires var t := DoSetCntH(s, c, mask, value); CountsCycles(t.channels[c].cntH, c) && NoCascadeInto(t, c)
    ensures var t := DoSetCntH(s, c, mask, value); var k := t.channels[c];
      var period := PeriodOf(k.cntL, k.cntH);
      1 <= period <= 0x400_0000 && OnGrid(t, Grid(c, s.Now() + period, period, k.cntH & 0x40 != 0, s.irqs[c]), 0)
  {
    var t := DoSetCntH(s, c, mask, value);
    var k := t.channels[c];
    StartArms(s, c, mask, value);
    PeriodBounds(k.cntL, k.cntH);
    StartSetsShift(s, c, mask, value);
    ShiftIsFactor(0x1_0000 - k.cntL, k.cntH);
  }

  lemma StartSetsShift(s: State, c: Slot, mask: bv16, value: bv16)
    requires s.channels[c].cntH & 0x80 == 0 && CountsCycles(DoSetCntH(s, c, mask, value).channels[c].cntH, c)
    ensures var k := DoSetCntH(s, c, mask, value).channels[c]; k.shift == PrescalerShift(k.cntH, false)
  {
    ControlAfter(s, c, mask, value);
    ReconfiguredControl(s.channels[c], c, mask, value);
    StartLoads(s.channels[c], c, mask, value);
  }

  lemma StartedGrid(s: State, t: State, c: Slot, mask: bv16, value: bv16, period: int, irq: bool) returns (g: Grid)
    requires s.channels[c].cntH & 0x80 == 0 && s.count <= CLOCK_LIMIT && t == DoSetCntH(s, c, mask, value)
    requires CountsCycles(t.channels[c].cntH, c) && NoCascadeInto(t, c)
    requires period == PeriodOf(s.channels[c].cntL, t.channels[c].cntH) && irq == (t.channels[c].cntH & 0x40 != 0)
    ensures 1 <= period <= 0x400_0000 && g == Grid(c, s.Now() + period, period, irq, s.irqs[c]) && OnGrid(t, g, 0)
  {
    StartIsOnGrid(s, c, mask, value);
    StartArms(s, c, mask, value);
    g := Grid(c, s.Now() + period, period, irq, s.irqs[c]);
  }

  lemma NextPoint(g: Grid, k: nat, start: int)
    requires g.first == start + g.period
    ensures g.Point(k) == start + (k + 1) * g.period
  {
    PointIsMultiple(g, k);
  }

  /** A timer that has overflowed `k` times since `start` is due `k + 1` periods after it. */
  ghost predicate DueNext(s: State, c: Slot, start: int, period: U32, sent: nat, irq: bool, k: nat) {
    3 + c in s.active && s.DueAt(3 + c) == start + (k + 1) * period && s.irqs[c] == sent + if irq then k else 0
  }

  lemma GridDueNext(s: State, g: Grid, k: nat, start: int)
    requires OnGrid(s, g, k) && g.first == start + g.period
    ensures DueNext(s, g.c, start, g.period, g.sent, g.irq, k)
  {
    NextPoint(g, k, start);
  }

  lemma RunDueNext(hle: bool, t: State, slices: seq<Slice>, b: Beat, g: Grid, start: int)
    requires b.Ok() && Settled(t, b) && RunOk(hle, t, slices, b) && forall sl :: sl in slices ==> SliceLeaves(sl, g.c)
    requires OnGrid(t, g, 0) && g.first == start + g.period
    ensures var w := Run(hle, t, slices);
      DueNext(w.state, g.c, start, g.period, g.sent, g.irq, Times(w.ran, 3 + g.c))
  {
    TimerStaysOnGrid(hle, t, slices, b, g);
    SweptDueNext(Run(hle, t, slices), g, start);
  }

  lemma SweptDueNext(w: Swept, g: Grid, start: int)
    requires SweptOnGrid(w, g, 0) && g.first == start + g.period
    ensures DueNext(w.state, g.c, start, g.period, g.sent, g.irq, Times(w.ran, 3 + g.c))
  {
    GridDueNext(w.state, g, Times(w.ran, 3 + g.c), start);
  }

  /** From the write that starts it, over any run that leaves its registers alone, a timer that has overflowed `k`
      times is next due exactly `k + 1` periods after the write, and has sent an interrupt for each overflow if they
      are enabled. The period is what its registers say: the ticks from the reload value to the end of the count,
      of 1, 64, 256 or 1024 cycles. */
  lemma OverflowsFromTheStart(hle: bool, s: State, t: State, c: Slot, mask: bv16, value: bv16, slices: seq<Slice>,
                              b: Beat)
    requires s.channels[c].cntH & 0x80 == 0 && s.count <= CLOCK_LIMIT && b.Ok() && t == DoSetCntH(s, c, mask, value)
    requires CountsCycles(t.channels[c].cntH, c) && NoCascadeInto(t, c)
    requires Settled(t, b) && RunOk(hle, t, slices, b) && forall sl :: sl in slices ==> SliceLeaves(sl, c)
    ensures var w, control := Run(hle, t, slices), t.channels[c].cntH;
      var period := PeriodOf(s.channels[c].cntL, control);
      && 1 <= period <= 0x400_0000
      && DueNext(w.state, c, s.Now(), period, s.irqs[c], control & 0x40 != 0, Times(w.ran, 3 + c))
  {
    var control := t.channels[c].cntH;
    var g := StartedGrid(s, t, c, mask, value, PeriodOf(s.channels[c].cntL, control), control & 0x40 != 0);
    RunDueNext(hle, t, slices, b, g, s.Now());
  }
}
