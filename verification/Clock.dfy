/**
 How far the clock moves up to each call of the scheduler, and that it reaches what it waits for: a machine
 that sleeps runs its earliest event, exactly when that is due, in at most two calls.
 */
module Clock {
  import opened Machine
  import opened Emulator
  import opened RunLoop
  import opened Dispatch

  // ---- how far ----

  /** The ARM9 runs at twice the clock; an odd cycle counts as a whole one. */
  function HalfOf(cycles: U16): int { (cycles + 1) % 0x1_0000 / 2 }

  /** The shorter of two runs, where none at all does not count. */
  function Shorter(a: int, b: int): int { if a == 0 then b else if b == 0 then a else if a < b then a else b }

  /** How many cycles a slice adds, if it adds any: at the end of the main loop's executions those of the ARM9, or of
      the shorter run when both processors are executed; the same at a branch, where the ARM9 is running; while the
      ARM9 waits, those of the ARM7. */
  function Added(hle: bool, sl: Slice): int {
    if sl.at.IdleLoop? then sl.cycles7
    else if hle then Nine(sl)
    else Shorter(Nine(sl), Seven(sl))
  }

  function Nine(sl: Slice): int { if sl.at.MainLoop? && sl.halted9 then 0 else HalfOf(sl.cycles9) }

  function Seven(sl: Slice): int { if sl.stopped7 then 0 else sl.cycles7 }

  /** When it is taken forward to the next event instead: the main loop when the ARM9 has halted, or when no processor
      ran where both are executed; the waiting loop when there is no ARM7 to run. A branch never is. */
  predicate Skips(hle: bool, sl: Slice) {
    match sl.at
    case MainLoop => if hle then sl.halted9After else Added(hle, sl) == 0
    case Branch => false
    case IdleLoop => hle || sl.stopped7
  }

  lemma ShorterIsSliceCycles(a: U16, b: U16)
    ensures SliceCycles(a, b) == Shorter(a, b) <= 0xFFFF
  {
    SliceCyclesIsShortestRun(a, b);
  }

  lemma AddedIsCycles(hle: bool, sl: Slice)
    ensures CyclesOf(hle, sl) == Added(hle, sl) <= 0xFFFF
  {
    NineIsArm9(sl);
    ShorterIsSliceCycles(Arm9Cycles(sl), Arm7Cycles(sl));
  }

  lemma NineIsArm9(sl: Slice)
    ensures Nine(sl) == Arm9Cycles(sl) && Seven(sl) == Arm7Cycles(sl)
  {
  }

  lemma SkipsIsJumps(hle: bool, sl: Slice)
    ensures Jumps(hle, sl) == Skips(hle, sl)
  {
    AddedIsCycles(hle, sl);
  }

  /** Up to the check of a slice, guest code acts and the clock moves, and nothing else: by the cycles of the slice, or
      to the next event if that is ahead. */
  lemma ClockMoves(hle: bool, s: State, sl: Slice)
    requires s.count <= U32_MAX - 0xFFFF
    ensures var before, after := ActAll(s, sl.guest), AtCheck(hle, s, sl);
      && before.count == s.count && after == before.(count := after.count)
      && after.count == if !Skips(hle, sl) then s.count + Added(hle, sl)
                        else if before.next > s.count then before.next
                        else s.count
  {
    AddedIsCycles(hle, sl);
    SkipsIsJumps(hle, sl);
  }

  // ---- what is reached ----

  /** From a state in which nothing is late, a slice that skips comes to its check with the clock exactly at the next
      event, as guest code left it, and its gate opens. */
  lemma SkipOpensGate(hle: bool, s: State, sl: Slice)
    requires s.count <= U32_MAX - 0xFFFF && KeepsUp(s) && Skips(hle, sl)
    requires forall a :: a in sl.guest ==> !a.ScheduleFromDue?
    ensures var at, gate := AtCheck(hle, s, sl), AtGate(hle, s, sl);
      at.count == at.next == ActAll(s, sl.guest).next && gate.count == at.count && GateOpen(gate)
  {
    NextStaysAbove(s, sl.guest, s.count);
    ClockMoves(hle, s, sl);
    ImmKeepsClock(AtCheck(hle, s, sl), sl.imm);
  }

  lemma ImmKeepsClock(s: State, plan: ImmPlan)
    ensures var r := AfterImm(s, plan); r.count == s.count && r.next <= s.next
  {
    ImmSweepKeepsClock(s.(imm := {}), s.imm, plan, IMM_COUNT);
  }

  lemma {:induction false} ImmSweepKeepsClock(s: State, pending: set<ImmEvent>, plan: ImmPlan, n: nat)
    requires n <= IMM_COUNT
    ensures SameClock(s, ImmSweep(s, pending, plan, n))
  {
    if n > 0 {
      ImmSweepKeepsClock(s, pending, plan, n - 1);
    }
  }

  /** Of the active events `e` is due first, and has the lowest number of those due when it is. */
  ghost predicate Earliest(s: State, e: Event) {
    e in s.active && forall x :: x in s.active ==> s.events[e] < s.events[x] || (s.events[e] == s.events[x] && e <= x)
  }

  /** Up to the first event that is due, a sweep runs nothing; it only collects the earliest of the others. */
  lemma {:induction false} NothingDueYet(s: State, armed: set<Event>, now: U32, plan: Plan, n: nat)
    requires n <= EVENT_COUNT && forall x :: x in armed && x < n ==> s.events[x] > now
    ensures var w := Sweep(s, armed, now, plan, n);
      && w.ran == [] && w.state == s.(next := w.state.next) && w.state.next <= s.next
      && (forall x :: x in armed && x < n ==> w.state.next <= s.events[x])
      && (w.state.next == s.next || exists x :: x in armed && x < n && w.state.next == s.events[x])
  {
    if n > 0 {
      NothingDueYet(s, armed, now, plan, n - 1);
      var w, v := Sweep(s, armed, now, plan, n - 1), Sweep(s, armed, now, plan, n);
      SweepStep(s, armed, now, plan, n - 1);
      if n - 1 in armed {
        assert v == Visit(w, n - 1, now, plan) == Swept(w.state.(next := Min(w.state.next, s.events[n - 1])), []);
      }
    }
  }

  lemma {:induction false} SweepGoesOn(s: State, armed: set<Event>, now: U32, plan: Plan, m: nat, n: nat)
    requires m <= n <= EVENT_COUNT
    ensures Sweep(s, armed, now, plan, m).ran <= Sweep(s, armed, now, plan, n).ran
    decreases n
  {
    if m < n {
      SweepGoesOn(s, armed, now, plan, m, n - 1);
      SweepStep(s, armed, now, plan, n - 1);
    }
  }

  /** `e` is due, and no event before it in the order of their numbers is. */
  ghost predicate FirstDue(s: State, e: Event) {
    e in s.active && s.events[e] <= s.count && forall x :: x in s.active && x < e ==> s.events[x] > s.count
  }

  lemma SweepRunsFirstDue(s: State, plan: Plan, e: Event)
    requires FirstDue(s, e)
    ensures e in SweepAll(s, plan).ran
  {
    var s1, armed := s.(next := U32_MAX), s.active;
    NothingDueYet(s1, armed, s.count, plan, e);
    var w := Sweep(s1, armed, s.count, plan, e);
    SweepStep(s1, armed, s.count, plan, e);
    var r := Sweep(s1, armed, s.count, plan, e + 1).ran;
    assert r == w.ran + [e];
    SweepGoesOn(s1, armed, s.count, plan, e + 1, EVENT_COUNT);
    assert SweepAll(s, plan).ran[|r| - 1] == r[|r| - 1] == e;
  }

  lemma SweepFindsEarliest(s: State, plan: Plan, e: Event)
    requires Earliest(s, e) && s.events[e] > s.count
    ensures SweepAll(s, plan) == Swept(s.(next := s.events[e]), [])
  {
    NothingDueYet(s.(next := U32_MAX), s.active, s.count, plan, EVENT_COUNT);
  }

  /** Whatever is first due at a check runs in it, whatever handlers do. */
  lemma FirstDueRuns(s: State, immPlan: ImmPlan, plan: Plan, e: Event)
    requires NextIsLowerBound(s) && FirstDue(AfterImm(s, immPlan), e)
    ensures e in Check(s, immPlan, plan).ran
  {
    AfterImmKeepsLowerBound(s, immPlan);
    SweepRunsFirstDue(AfterImm(s, immPlan), plan, e);
  }

  // ---- a sleeping machine ----

  /** Nothing runs but the scheduler: no guest code, and the clock skips ahead. */
  predicate Sleeps(hle: bool, sl: Slice) { Skips(hle, sl) && sl.guest == [] }

  lemma {:induction false} NoImmSweep(s: State, plan: ImmPlan, n: nat)
    requires n <= IMM_COUNT
    ensures ImmSweep(s, {}, plan, n) == s
  {
    if n > 0 {
      NoImmSweep(s, plan, n - 1);
    }
  }

  lemma SleepToGate(hle: bool, s: State, sl: Slice)
    requires Sleeps(hle, sl) && s.imm == {} && KeepsUp(s)
    ensures AtGate(hle, s, sl) == s.(count := s.next) && GateOpen(AtGate(hle, s, sl))
  {
    SkipsIsJumps(hle, sl);
    var at := AtCheck(hle, s, sl);
    assert at == s.(count := s.next);
    NoImmSweep(at, sl.imm, IMM_COUNT);
    assert at.(imm := {}) == at;
  }

  /** Nothing is late or pending, and the next event cycle is a lower bound. */
  ghost predicate Waiting(s: State) { NextIsLowerBound(s) && KeepsUp(s) && s.imm == {} }

  lemma RebaseKeepsEarliest(s: State, e: Event)
    requires Waiting(s) && Earliest(s, e) && s.next == s.events[e]
    ensures var r := Rebase(s);
      Waiting(r) && Earliest(r, e) && r.next == r.events[e] && r.DueAt(e) == s.DueAt(e)
  {
    forall x | x in s.active
      ensures Rebase(s).events[x] == s.events[x] - s.count && Rebase(s).DueAt(x) == s.DueAt(x)
    {
      RebasedAt(s, x);
    }
  }

  /** With an exact bound, one call takes the clock to the earliest event, just when that is due, and runs it. */
  lemma ExactSleep(hle: bool, s: State, sl: Slice, e: Event)
    requires Sleeps(hle, sl) && Waiting(s) && Earliest(s, e) && s.next == s.events[e]
    ensures AtGate(hle, s, sl).Now() == s.DueAt(e) && e in Iterate(hle, s, sl).ran
  {
    SleepToGate(hle, s, sl);
    SweepRunsFirstDue(AtGate(hle, s, sl), sl.plan, e);
  }

  /** With a stale one, it runs nothing and makes the bound exact. */
  lemma StaleSleep(hle: bool, s: State, sl: Slice, e: Event)
    requires Sleeps(hle, sl) && Waiting(s) && Earliest(s, e) && s.next < s.events[e]
    ensures var w := Iterate(hle, s, sl);
      && w.ran == [] && Waiting(w.state) && Earliest(w.state, e) && w.state.next == w.state.events[e]
      && w.state.DueAt(e) == s.DueAt(e)
  {
    SleepToGate(hle, s, sl);
    var gate := AtGate(hle, s, sl);
    SweepFindsEarliest(gate, sl.plan, e);
    var t := gate.(next := gate.events[e]);
    assert Waiting(t) && Earliest(t, e);
    if gate.count > REBASE_AT {
      RebaseKeepsEarliest(t, e);
    }
  }

  /** A machine in which nothing runs and nothing is late runs its earliest event in at most two calls of the
      scheduler, with the clock exactly at the cycle in which it is due: in one call if the bound is exact, and
      otherwise in the second. */
  lemma SleepRunsEarliest(hle: bool, s: State, first: Slice, second: Slice, e: Event)
    requires Sleeps(hle, first) && Sleeps(hle, second) && Waiting(s) && Earliest(s, e)
    ensures e in Run(hle, s, [first, second]).ran
    ensures var w := Iterate(hle, s, first);
      if s.next == s.events[e] then AtGate(hle, s, first).Now() == s.DueAt(e) && e in w.ran
      else w.ran == [] && AtGate(hle, w.state, second).Now() == s.DueAt(e) && e in Iterate(hle, w.state, second).ran
  {
    if s.next == s.events[e] {
      ExactSleep(hle, s, first, e);
    } else {
      StaleSleep(hle, s, first, e);
      ExactSleep(hle, Iterate(hle, s, first).state, second, e);
    }
    RunOfTwo(hle, s, [first, second], [first], first, second);
  }

  lemma RunOneMore(hle: bool, s: State, slices: seq<Slice>, before: seq<Slice>, sl: Slice)
    requires slices == before + [sl]
    ensures var w := Run(hle, s, before); var v := Iterate(hle, w.state, sl);
      Run(hle, s, slices) == Swept(v.state, w.ran + v.ran)
  {
    assert slices[..|slices| - 1] == before && slices[|slices| - 1] == sl;
  }

  lemma RunOfOne(hle: bool, s: State, slices: seq<Slice>, sl: Slice)
    requires slices == [] + [sl]
    ensures Run(hle, s, slices) == Iterate(hle, s, sl)
  {
    RunOneMore(hle, s, slices, [], sl);
    assert Run(hle, s, []) == Swept(s, []);
    assert [] + Iterate(hle, s, sl).ran == Iterate(hle, s, sl).ran;
  }

  lemma RunOfTwo(hle: bool, s: State, both: seq<Slice>, one: seq<Slice>, first: Slice, second: Slice)
    requires one == [] + [first] && both == one + [second]
    ensures var w := Iterate(hle, s, first);
      Run(hle, s, both).ran == w.ran + Iterate(hle, w.state, second).ran
  {
    RunOfOne(hle, s, one, first);
    RunOneMore(hle, s, both, one, second);
  }
}
