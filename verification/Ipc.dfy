/** The FIFOs and sync registers between the two processors, emulated at the low level. */
module Ipc {
  import IoTable

  datatype Cpu = Arm9 | Arm7

  function Other(cpu: Cpu): Cpu { if cpu.Arm9? then Arm7 else Arm9 }

  /** `IpcFifoCnt`, field by field. */
  datatype Cnt = Cnt(sendEmpty: bool, sendFull: bool, sendEmptyIrq: bool, sendClear: bool,
                     recvEmpty: bool, recvFull: bool, recvIrq: bool, err: bool, enable: bool)

  const CNT0 := Cnt(true, false, false, false, true, false, false, false, false)

  predicate Bit(value: bv16, b: bv16) { value & b != 0 }

  function Flag(on: bool, b: bv16): bv16 { if on then b else 0 }

  /** The bits of the register that the guest cannot write, and those it can. */
  function StatusBits(c: Cnt): bv16 {
    Flag(c.sendEmpty, 0x1) | Flag(c.sendFull, 0x2) | Flag(c.sendClear, 0x8)
    | Flag(c.recvEmpty, 0x100) | Flag(c.recvFull, 0x200) | Flag(c.err, 0x4000)
  }

  function ControlBits(sendEmptyIrq: bool, recvIrq: bool, enable: bool): bv16 {
    Flag(sendEmptyIrq, 0x4) | Flag(recvIrq, 0x400) | Flag(enable, 0x8000)
  }

  /** The register as the guest reads it; the bits between the fields are never set. */
  function Bits(c: Cnt): bv16 { StatusBits(c) | ControlBits(c.sendEmptyIrq, c.recvIrq, c.enable) }

  function Choose(mask: bv16, value: bv16, b: bv16, was: bool): bool { if Bit(mask, b) then Bit(value, b) else was }

  /** A masked write to the three writable bits. */
  function WriteCnt(c: Cnt, mask: bv16, value: bv16): Cnt {
    c.(sendEmptyIrq := Choose(mask, value, 0x4, c.sendEmptyIrq), recvIrq := Choose(mask, value, 0x400, c.recvIrq),
       enable := Choose(mask, value, 0x8000, c.enable))
  }

  lemma FlagMasked(mask: bv16, value: bv16, b: bv16, was: bool)
    requires b == 0x4 || b == 0x400 || b == 0x8000
    ensures Flag(Choose(mask, value, b, was), b) == (Flag(was, b) & !(mask & b)) | (value & (mask & b))
  {
    if b == 0x4 {
    } else if b == 0x400 {
    } else {
    }
  }

  lemma MaskThree(a: bv16, b: bv16, c: bv16, mask: bv16, value: bv16)
    requires a & !0x4 == 0 && b & !0x400 == 0 && c & !0x8000 == 0
    ensures var m := mask & 0x8404;
      ((a & !(mask & 0x4)) | (value & (mask & 0x4))) | ((b & !(mask & 0x400)) | (value & (mask & 0x400)))
        | ((c & !(mask & 0x8000)) | (value & (mask & 0x8000)))
      == ((a | b | c) & !m) | (value & m)
  {
  }

  lemma ControlMasked(a: bool, b: bool, c: bool, mask: bv16, value: bv16)
    ensures var m := mask & 0x8404;
      ControlBits(Choose(mask, value, 0x4, a), Choose(mask, value, 0x400, b), Choose(mask, value, 0x8000, c))
      == (ControlBits(a, b, c) & !m) | (value & m)
  {
    FlagMasked(mask, value, 0x4, a);
    FlagMasked(mask, value, 0x400, b);
    FlagMasked(mask, value, 0x8000, c);
    MaskThree(Flag(a, 0x4), Flag(b, 0x400), Flag(c, 0x8000), mask, value);
  }

  lemma StatusApart(c: Cnt)
    ensures StatusBits(c) & 0x8404 == 0
  {
  }

  lemma MaskBeside(rest: bv16, w: bv16, mask: bv16, value: bv16)
    requires rest & 0x8404 == 0
    ensures var m := mask & 0x8404; rest | ((w & !m) | (value & m)) == ((rest | w) & !m) | (value & m)
  {
  }

  lemma RegisterMasked(rest: bv16, a: bool, b: bool, c: bool, mask: bv16, value: bv16)
    requires rest & 0x8404 == 0
    ensures var m := mask & 0x8404;
      rest | ControlBits(Choose(mask, value, 0x4, a), Choose(mask, value, 0x400, b), Choose(mask, value, 0x8000, c))
      == ((rest | ControlBits(a, b, c)) & !m) | (value & m)
  {
    ControlMasked(a, b, c, mask, value);
    MaskBeside(rest, ControlBits(a, b, c), mask, value);
  }

  lemma WrittenBits(c: Cnt, mask: bv16, value: bv16)
    ensures Bits(WriteCnt(c, mask, value)) == StatusBits(c)
      | ControlBits(Choose(mask, value, 0x4, c.sendEmptyIrq), Choose(mask, value, 0x400, c.recvIrq),
                    Choose(mask, value, 0x8000, c.enable))
  {
    assert StatusBits(WriteCnt(c, mask, value)) == StatusBits(c);
  }

  /** The field by field write is the masked write of the whole register. */
  lemma WriteCntIsMasked(c: Cnt, mask: bv16, value: bv16)
    ensures var m := mask & 0x8404; Bits(WriteCnt(c, mask, value)) == (Bits(c) & !m) | (value & m)
  {
    StatusApart(c);
    WrittenBits(c, mask, value);
    RegisterMasked(StatusBits(c), c.sendEmptyIrq, c.recvIrq, c.enable, mask, value);
  }

  /** One processor's side: its control register, the words it has sent and not had received, the last word
      it received, and its sync register. */
  datatype Port = Port(cnt: Cnt, queue: seq<bv32>, last: bv32, sync: bv16)

  datatype Kind = SyncIrq | SendEmptyIrq | RecvNotEmptyIrq

  datatype Interrupt = Interrupt(cpu: Cpu, kind: Kind)

  datatype State = State(arm9: Port, arm7: Port, irqs: seq<Interrupt>) {
    function At(cpu: Cpu): Port { if cpu.Arm9? then arm9 else arm7 }
  }

  const START := State(Port(CNT0, [], 0, 0), Port(CNT0, [], 0, 0), [])

  /** What an operation by one processor does to its own side and to the other's. */
  datatype Effect = Effect(me: Port, you: Port, irqs: seq<Interrupt>)

  function When(on: bool, cpu: Cpu, kind: Kind): seq<Interrupt> { if on then [Interrupt(cpu, kind)] else [] }

  /** The sync register of the writer and that of the other side after a masked write. */
  function SyncOut(sync: bv16, mask: bv16, value: bv16): bv16 { (sync & !(mask & 0x4F00)) | (value & (mask & 0x4F00)) }

  function SyncIn(sync: bv16, mask: bv16, value: bv16): bv16 {
    (sync & !(((mask & 0x4F00) >> 8) & 0xF)) | (((value & (mask & 0x4F00)) >> 8) & 0xF)
  }

  predicate SyncRaises(value: bv16, otherSync: bv16) { Bit(value, 0x2000) && Bit(otherSync, 0x4000) }

  function SetSync(cpu: Cpu, me: Port, you: Port, mask: bv16, value: bv16): Effect {
    var you' := you.(sync := SyncIn(you.sync, mask, value));
    Effect(me.(sync := SyncOut(me.sync, mask, value)), you', When(SyncRaises(value, you'.sync), Other(cpu), SyncIrq))
  }

  function Send(cpu: Cpu, me: Port, you: Port, word: bv32): Effect {
    if !me.cnt.enable then Effect(me.(cnt := me.cnt.(err := true)), you, [])
    else if |me.queue| >= 16 then Effect(me, you, [])
    else
      var me1 := me.(queue := me.queue + [word]);
      if |me.queue| == 0 then
        Effect(me1.(cnt := me.cnt.(sendEmpty := false)), you.(cnt := you.cnt.(recvEmpty := false)),
               When(you.cnt.recvIrq, Other(cpu), RecvNotEmptyIrq))
      else if |me.queue| == 15 then
        Effect(me1.(cnt := me.cnt.(sendFull := true)), you.(cnt := you.cnt.(recvFull := true)), [])
      else Effect(me1, you, [])
  }

  /** Receiving pops only while the receiver's FIFO is enabled; a disabled one peeks. */
  function Recv(cpu: Cpu, me: Port, you: Port): Effect {
    if |you.queue| == 0 then Effect(me.(cnt := me.cnt.(err := true)), you, [])
    else
      var me1 := me.(last := you.queue[0]);
      if !me.cnt.enable then Effect(me1, you, [])
      else
        var you1 := you.(queue := you.queue[1..]);
        if |you.queue| == 1 then
          Effect(me1.(cnt := me.cnt.(recvEmpty := true)), you1.(cnt := you.cnt.(sendEmpty := true)),
                 When(you.cnt.sendEmptyIrq, Other(cpu), SendEmptyIrq))
        else if |you.queue| == 16 then
          Effect(me1.(cnt := me.cnt.(recvFull := false)), you1.(cnt := you.cnt.(sendFull := false)), [])
        else Effect(me1, you1, [])
  }

  predicate Clears(me: Port, value: bv16) { Bit(value, 0x8) && me.queue != [] }

  function Cleared(me: Port): Port {
    me.(queue := [], last := 0, cnt := me.cnt.(sendEmpty := true, sendFull := false))
  }

  /** The interrupts a control write raises at once. */
  function CntIrqs(cpu: Cpu, c: Cnt, value: bv16): seq<Interrupt> {
    When(c.sendEmpty && !c.sendEmptyIrq && Bit(value, 0x4), cpu, SendEmptyIrq)
    + When(!c.recvEmpty && !c.recvIrq && Bit(value, 0x400), cpu, RecvNotEmptyIrq)
  }

  function Acknowledged(c: Cnt, value: bv16): Cnt { if Bit(value, 0x4000) then c.(err := false) else c }

  function SetCnt(cpu: Cpu, me: Port, you: Port, mask: bv16, value: bv16): Effect {
    var me1 := if Clears(me, value) then Cleared(me) else me;
    var you1 := if Clears(me, value) then you.(cnt := you.cnt.(recvEmpty := true, recvFull := false)) else you;
    Effect(me1.(cnt := WriteCnt(Acknowledged(me1.cnt, value), mask, value)), you1, CntIrqs(cpu, me1.cnt, value))
  }

  datatype Step =
    | WriteSync(cpu: Cpu, mask: bv16, value: bv16)
    | WriteFifoCnt(cpu: Cpu, mask: bv16, value: bv16)
    | SendWord(cpu: Cpu, sendMask: bv32, word: bv32)
    | ReceiveWord(cpu: Cpu)

  /** Clearing a filled queue with the empty interrupt enabled is not implemented: it panics. */
  predicate Panics(s: State, step: Step) {
    step.WriteFifoCnt? && Clears(s.At(step.cpu), step.value) && s.At(step.cpu).cnt.sendEmptyIrq
  }

  function EffectOf(me: Port, you: Port, step: Step): Effect {
    match step
    case WriteSync(cpu, mask, value) => SetSync(cpu, me, you, mask, value)
    case WriteFifoCnt(cpu, mask, value) => SetCnt(cpu, me, you, mask, value)
    case SendWord(cpu, mask, word) => Send(cpu, me, you, word & mask)
    case ReceiveWord(cpu) => Recv(cpu, me, you)
  }

  function Next(s: State, step: Step): State {
    var e := EffectOf(s.At(step.cpu), s.At(Other(step.cpu)), step);
    if step.cpu.Arm9? then State(e.me, e.you, s.irqs + e.irqs) else State(e.you, e.me, s.irqs + e.irqs)
  }

  function Run(s: State, steps: seq<Step>): State
    decreases |steps|
  {
    if steps == [] then s else Run(Next(s, steps[0]), steps[1..])
  }

  // ---- status bits and sync nibbles ----

  /** The status bits on both sides say what the sender's queue holds. */
  predicate StatusExact(sender: Port, receiver: Port) {
    && |sender.queue| <= 16
    && sender.cnt.sendEmpty == receiver.cnt.recvEmpty == (|sender.queue| == 0)
    && sender.cnt.sendFull == receiver.cnt.recvFull == (|sender.queue| == 16)
  }

  function DataIn(p: Port): bv16 { p.sync & 0xF }

  function DataOut(p: Port): bv16 { (p.sync >> 8) & 0xF }

  predicate Invariant(s: State) { PairOk(s.arm9, s.arm7) && SyncOk(s.arm9, s.arm7) }

  predicate PairOk(me: Port, you: Port) { StatusExact(me, you) && StatusExact(you, me) }

  lemma SyncNibbles(x: bv16, y: bv16, mask0: bv16, value: bv16)
    ensures var mask := mask0 & 0x4F00;
      var x', y' := (x & !mask) | (value & mask), (y & !((mask >> 8) & 0xF)) | (((value & mask) >> 8) & 0xF);
      x' & 0xF == x & 0xF && (y' >> 8) & 0xF == (y >> 8) & 0xF
      && (y & 0xF == (x >> 8) & 0xF ==> y' & 0xF == (x' >> 8) & 0xF)
  {
  }

  lemma SendKeepsStatus(cpu: Cpu, me: Port, you: Port, word: bv32)
    requires PairOk(me, you)
    ensures var e := Send(cpu, me, you, word); PairOk(e.me, e.you) && e.me.sync == me.sync && e.you.sync == you.sync
  {
  }

  lemma RecvKeepsStatus(cpu: Cpu, me: Port, you: Port)
    requires PairOk(me, you)
    ensures var e := Recv(cpu, me, you); PairOk(e.me, e.you) && e.me.sync == me.sync && e.you.sync == you.sync
  {
  }

  lemma SetCntKeepsStatus(cpu: Cpu, me: Port, you: Port, mask: bv16, value: bv16)
    requires PairOk(me, you)
    ensures var e := SetCnt(cpu, me, you, mask, value);
      PairOk(e.me, e.you) && e.me.sync == me.sync && e.you.sync == you.sync
  {
  }

  lemma SetSyncKeepsStatus(cpu: Cpu, me: Port, you: Port, mask: bv16, value: bv16)
    requires PairOk(me, you) && SyncOk(me, you)
    ensures var e := SetSync(cpu, me, you, mask, value); PairOk(e.me, e.you) && SyncOk(e.me, e.you)
  {
    SyncNibbles(me.sync, you.sync, mask, value);
  }

  predicate SyncOk(me: Port, you: Port) { DataIn(me) == DataOut(you) && DataIn(you) == DataOut(me) }

  predicate EffectOk(e: Effect) { PairOk(e.me, e.you) && SyncOk(e.me, e.you) }

  lemma SyncStepOk(me: Port, you: Port, step: Step)
    requires PairOk(me, you) && SyncOk(me, you) && step.WriteSync?
    ensures EffectOk(EffectOf(me, you, step))
  {
    SetSyncKeepsStatus(step.cpu, me, you, step.mask, step.value);
  }

  lemma CntStepOk(me: Port, you: Port, step: Step)
    requires PairOk(me, you) && SyncOk(me, you) && step.WriteFifoCnt?
    ensures EffectOk(EffectOf(me, you, step))
  {
    SetCntKeepsStatus(step.cpu, me, you, step.mask, step.value);
  }

  lemma SendStepOk(me: Port, you: Port, step: Step)
    requires PairOk(me, you) && SyncOk(me, you) && step.SendWord?
    ensures EffectOk(EffectOf(me, you, step))
  {
    SendKeepsStatus(step.cpu, me, you, step.word & step.sendMask);
  }

  lemma RecvStepOk(me: Port, you: Port, step: Step)
    requires PairOk(me, you) && SyncOk(me, you) && step.ReceiveWord?
    ensures EffectOk(EffectOf(me, you, step))
  {
    RecvKeepsStatus(step.cpu, me, you);
  }

  lemma EffectKeepsInvariant(me: Port, you: Port, step: Step)
    requires PairOk(me, you) && SyncOk(me, you)
    ensures EffectOk(EffectOf(me, you, step))
  {
    match step
    case WriteSync(_, _, _) => SyncStepOk(me, you, step);
    case WriteFifoCnt(_, _, _) => CntStepOk(me, you, step);
    case SendWord(_, _, _) => SendStepOk(me, you, step);
    case ReceiveWord(_) => RecvStepOk(me, you, step);
  }

  lemma NextKeepsInvariant(s: State, step: Step)
    requires Invariant(s)
    ensures Invariant(Next(s, step))
  {
    EffectKeepsInvariant(s.At(step.cpu), s.At(Other(step.cpu)), step);
  }

  lemma {:induction false} RunKeepsInvariant(s: State, steps: seq<Step>)
    requires Invariant(s)
    ensures Invariant(Run(s, steps))
    decreases |steps|
  {
    if steps != [] {
      NextKeepsInvariant(s, steps[0]);
      RunKeepsInvariant(Next(s, steps[0]), steps[1..]);
    }
  }

  /** In every state that can be reached from the start, the status bits of both sides are exact and each
      input nibble is the other side's output. */
  lemma ReachableIsExact(steps: seq<Step>)
    ensures Bits(START.arm9.cnt) == Bits(START.arm7.cnt) == 0x0101
    ensures Invariant(Run(START, steps))
  {
    RunKeepsInvariant(START, steps);
  }

  // ---- no word is lost, invented or reordered ----

  /** The word a step puts into the queue of `cpu`. */
  function Accepted(s: State, step: Step, cpu: Cpu): seq<bv32> {
    if step.SendWord? && step.cpu == cpu && s.At(cpu).cnt.enable && |s.At(cpu).queue| < 16 then
      [step.word & step.sendMask]
    else []
  }

  /** The words a step takes out of the queue of `cpu`: the one the other side then receives, or all of them
      when the sender clears. */
  function Removed(s: State, step: Step, cpu: Cpu): seq<bv32> {
    var queue := s.At(cpu).queue;
    if step.ReceiveWord? && step.cpu == Other(cpu) && s.At(step.cpu).cnt.enable && queue != [] then
      [Next(s, step).At(step.cpu).last]
    else if step.WriteFifoCnt? && step.cpu == cpu && Clears(s.At(cpu), step.value) then queue
    else []
  }

  lemma SendMoves(cpu: Cpu, me: Port, you: Port, word: bv32)
    ensures var e := Send(cpu, me, you, word);
      e.me.queue == me.queue + (if me.cnt.enable && |me.queue| < 16 then [word] else []) && e.you.queue == you.queue
  {
    assert me.queue + [] == me.queue;
  }

  lemma RecvMoves(cpu: Cpu, me: Port, you: Port)
    ensures var e := Recv(cpu, me, you);
      && you.queue == (if me.cnt.enable && you.queue != [] then [e.me.last] else []) + e.you.queue
      && e.me.queue == me.queue
  {
    assert [] + you.queue == you.queue;
    if you.queue != [] {
      assert [you.queue[0]] + you.queue[1..] == you.queue;
    }
  }

  lemma NextAt(s: State, step: Step)
    ensures var e := EffectOf(s.At(step.cpu), s.At(Other(step.cpu)), step);
      Next(s, step).At(step.cpu) == e.me && Next(s, step).At(Other(step.cpu)) == e.you
  {
  }

  predicate Moves(q: seq<bv32>, accepted: seq<bv32>, removed: seq<bv32>, q': seq<bv32>) { q + accepted == removed + q' }

  lemma MovesTrivially(q: seq<bv32>, a: seq<bv32>)
    ensures Moves(q, a, [], q + a) && Moves(q, [], [], q) && Moves(q, [], q, []) && q + [] == q
  {
    assert [] + (q + a) == q + a;
    assert q + [] == q == [] + q;
  }

  lemma SendStepMoves(s: State, step: Step, cpu: Cpu)
    requires step.SendWord?
    ensures Moves(s.At(cpu).queue, Accepted(s, step, cpu), Removed(s, step, cpu), Next(s, step).At(cpu).queue)
  {
    NextAt(s, step);
    SendMoves(step.cpu, s.At(step.cpu), s.At(Other(step.cpu)), step.word & step.sendMask);
    MovesTrivially(s.At(cpu).queue, [step.word & step.sendMask]);
  }

  lemma RecvStepMoves(s: State, step: Step, cpu: Cpu)
    requires step.ReceiveWord?
    ensures Moves(s.At(cpu).queue, Accepted(s, step, cpu), Removed(s, step, cpu), Next(s, step).At(cpu).queue)
  {
    NextAt(s, step);
    RecvMoves(step.cpu, s.At(step.cpu), s.At(Other(step.cpu)));
    MovesTrivially(s.At(cpu).queue, []);
  }

  lemma CntStepMoves(s: State, step: Step, cpu: Cpu)
    requires step.WriteFifoCnt?
    ensures Moves(s.At(cpu).queue, Accepted(s, step, cpu), Removed(s, step, cpu), Next(s, step).At(cpu).queue)
  {
    NextAt(s, step);
    MovesTrivially(s.At(cpu).queue, []);
  }

  lemma SyncStepMoves(s: State, step: Step, cpu: Cpu)
    requires step.WriteSync?
    ensures Moves(s.At(cpu).queue, Accepted(s, step, cpu), Removed(s, step, cpu), Next(s, step).At(cpu).queue)
  {
    NextAt(s, step);
    MovesTrivially(s.At(cpu).queue, []);
  }

  lemma QueueMoves(s: State, step: Step, cpu: Cpu)
    ensures Moves(s.At(cpu).queue, Accepted(s, step, cpu), Removed(s, step, cpu), Next(s, step).At(cpu).queue)
  {
    match step
    case WriteSync(_, _, _) => SyncStepMoves(s, step, cpu);
    case WriteFifoCnt(_, _, _) => CntStepMoves(s, step, cpu);
    case SendWord(_, _, _) => SendStepMoves(s, step, cpu);
    case ReceiveWord(_) => RecvStepMoves(s, step, cpu);
  }

  function AllAccepted(s: State, steps: seq<Step>, cpu: Cpu): seq<bv32>
    decreases |steps|
  {
    if steps == [] then [] else Accepted(s, steps[0], cpu) + AllAccepted(Next(s, steps[0]), steps[1..], cpu)
  }

  function AllRemoved(s: State, steps: seq<Step>, cpu: Cpu): seq<bv32>
    decreases |steps|
  {
    if steps == [] then [] else Removed(s, steps[0], cpu) + AllRemoved(Next(s, steps[0]), steps[1..], cpu)
  }

  lemma Reassociate(q: seq<bv32>, a: seq<bv32>, as': seq<bv32>, r: seq<bv32>, rs: seq<bv32>, q1: seq<bv32>,
                    q2: seq<bv32>)
    requires Moves(q, a, r, q1) && Moves(q1, as', rs, q2)
    ensures Moves(q, a + as', r + rs, q2)
  {
    assert q + (a + as') == (q + a) + as' == r + (q1 + as') == r + (rs + q2);
  }

  /** Over any run the words accepted in one direction are the words taken out, in that order, followed by
      the words still queued. */
  lemma {:induction false} WordsAreConserved(s: State, steps: seq<Step>, cpu: Cpu)
    ensures Moves(s.At(cpu).queue, AllAccepted(s, steps, cpu), AllRemoved(s, steps, cpu), Run(s, steps).At(cpu).queue)
    decreases |steps|
  {
    var q := s.At(cpu).queue;
    if steps == [] {
      assert q + [] == q == [] + q;
    } else {
      var t, rest := Next(s, steps[0]), steps[1..];
      QueueMoves(s, steps[0], cpu);
      WordsAreConserved(t, rest, cpu);
      Reassociate(q, Accepted(s, steps[0], cpu), AllAccepted(t, rest, cpu),
                  Removed(s, steps[0], cpu), AllRemoved(t, rest, cpu),
                  t.At(cpu).queue, Run(s, steps).At(cpu).queue);
    }
  }

  // ---- interrupts are raised on rising edges ----

  /** The conditions whose rising edge is the interrupt. */
  predicate Level(p: Port, kind: Kind) {
    match kind
    case SendEmptyIrq => p.cnt.sendEmptyIrq && p.cnt.sendEmpty
    case RecvNotEmptyIrq => p.cnt.recvIrq && !p.cnt.recvEmpty
    case SyncIrq => false
  }

  function EnableBit(kind: Kind): bv16 { if kind.SendEmptyIrq? then 0x4 else 0x400 }

  predicate Raised(s: State, step: Step, cpu: Cpu, kind: Kind) {
    Interrupt(cpu, kind) in EffectOf(s.At(step.cpu), s.At(Other(step.cpu)), step).irqs
  }

  predicate Rises(s: State, step: Step, cpu: Cpu, kind: Kind) {
    !Level(s.At(cpu), kind) && Level(Next(s, step).At(cpu), kind)
  }

  lemma SendEdges(cpu: Cpu, me: Port, you: Port, word: bv32, kind: Kind)
    requires PairOk(me, you) && !kind.SyncIrq?
    ensures var e := Send(cpu, me, you, word);
      (Interrupt(Other(cpu), kind) in e.irqs <==> !Level(you, kind) && Level(e.you, kind))
      && (Interrupt(cpu, kind) in e.irqs <==> !Level(me, kind) && Level(e.me, kind))
  {
  }

  lemma RecvEdges(cpu: Cpu, me: Port, you: Port, kind: Kind)
    requires PairOk(me, you) && !kind.SyncIrq?
    ensures var e := Recv(cpu, me, you);
      (Interrupt(Other(cpu), kind) in e.irqs <==> !Level(you, kind) && Level(e.you, kind))
      && (Interrupt(cpu, kind) in e.irqs <==> !Level(me, kind) && Level(e.me, kind))
  {
  }

  /** The enable bit is set in the value but masked out of the write, while the condition holds otherwise. */
  predicate PhantomFor(me: Port, mask: bv16, value: bv16, kind: Kind) {
    && Bit(value, EnableBit(kind)) && !Bit(mask, EnableBit(kind))
    && (if kind.SendEmptyIrq? then !me.cnt.sendEmptyIrq && (me.cnt.sendEmpty || Clears(me, value))
        else !me.cnt.recvIrq && !me.cnt.recvEmpty)
  }

  predicate Phantom(s: State, step: Step, cpu: Cpu, kind: Kind) {
    step.WriteFifoCnt? && step.cpu == cpu && PhantomFor(s.At(cpu), step.mask, step.value, kind)
  }

  lemma SetCntEdges(cpu: Cpu, me: Port, you: Port, mask: bv16, value: bv16, kind: Kind)
    requires PairOk(me, you) && !kind.SyncIrq? && !(Clears(me, value) && me.cnt.sendEmptyIrq)
    ensures var e := SetCnt(cpu, me, you, mask, value);
      (Interrupt(Other(cpu), kind) !in e.irqs && !(!Level(you, kind) && Level(e.you, kind)))
      && (Interrupt(cpu, kind) in e.irqs <==>
            (!Level(me, kind) && Level(e.me, kind)) || PhantomFor(me, mask, value, kind))
  {
  }

  lemma SyncEdges(cpu: Cpu, me: Port, you: Port, mask: bv16, value: bv16, kind: Kind)
    requires !kind.SyncIrq?
    ensures var e := SetSync(cpu, me, you, mask, value);
      Interrupt(Other(cpu), kind) !in e.irqs && Interrupt(cpu, kind) !in e.irqs
      && Level(e.me, kind) == Level(me, kind) && Level(e.you, kind) == Level(you, kind)
  {
  }

  predicate EdgeExact(s: State, step: Step, cpu: Cpu, kind: Kind) {
    Raised(s, step, cpu, kind) <==> Rises(s, step, cpu, kind) || Phantom(s, step, cpu, kind)
  }

  lemma SendOwnEdges(s: State, step: Step, kind: Kind)
    requires Invariant(s) && !kind.SyncIrq? && step.SendWord?
    ensures EdgeExact(s, step, step.cpu, kind)
  {
    NextAt(s, step);
    SendEdges(step.cpu, s.At(step.cpu), s.At(Other(step.cpu)), step.word & step.sendMask, kind);
  }

  lemma SendOtherEdges(s: State, step: Step, kind: Kind)
    requires Invariant(s) && !kind.SyncIrq? && step.SendWord?
    ensures EdgeExact(s, step, Other(step.cpu), kind)
  {
    NextAt(s, step);
    SendEdges(step.cpu, s.At(step.cpu), s.At(Other(step.cpu)), step.word & step.sendMask, kind);
  }

  lemma RecvOwnEdges(s: State, step: Step, kind: Kind)
    requires Invariant(s) && !kind.SyncIrq? && step.ReceiveWord?
    ensures EdgeExact(s, step, step.cpu, kind)
  {
    NextAt(s, step);
    RecvEdges(step.cpu, s.At(step.cpu), s.At(Other(step.cpu)), kind);
  }

  lemma RecvOtherEdges(s: State, step: Step, kind: Kind)
    requires Invariant(s) && !kind.SyncIrq? && step.ReceiveWord?
    ensures EdgeExact(s, step, Other(step.cpu), kind)
  {
    NextAt(s, step);
    RecvEdges(step.cpu, s.At(step.cpu), s.At(Other(step.cpu)), kind);
  }

  lemma CntOwnEdges(s: State, step: Step, kind: Kind)
    requires Invariant(s) && !Panics(s, step) && !kind.SyncIrq? && step.WriteFifoCnt?
    ensures EdgeExact(s, step, step.cpu, kind)
  {
    NextAt(s, step);
    SetCntEdges(step.cpu, s.At(step.cpu), s.At(Other(step.cpu)), step.mask, step.value, kind);
  }

  lemma CntOtherEdges(s: State, step: Step, kind: Kind)
    requires Invariant(s) && !Panics(s, step) && !kind.SyncIrq? && step.WriteFifoCnt?
    ensures EdgeExact(s, step, Other(step.cpu), kind)
  {
    NextAt(s, step);
    SetCntEdges(step.cpu, s.At(step.cpu), s.At(Other(step.cpu)), step.mask, step.value, kind);
  }

  lemma SyncStepEdges(s: State, step: Step, cpu: Cpu, kind: Kind)
    requires !kind.SyncIrq? && step.WriteSync?
    ensures EdgeExact(s, step, cpu, kind)
  {
    NextAt(s, step);
    SyncEdges(step.cpu, s.At(step.cpu), s.At(Other(step.cpu)), step.mask, step.value, kind);
  }

  lemma EdgesOrPhantoms(s: State, step: Step, cpu: Cpu, kind: Kind)
    requires Invariant(s) && !Panics(s, step) && !kind.SyncIrq?
    ensures EdgeExact(s, step, cpu, kind)
  {
    assert cpu == step.cpu || cpu == Other(step.cpu);
    match step
    case WriteSync(_, _, _) => SyncStepEdges(s, step, cpu, kind);
    case WriteFifoCnt(_, _, _) =>
      CntOwnEdges(s, step, kind);
      CntOtherEdges(s, step, kind);
    case SendWord(_, _, _) =>
      SendOwnEdges(s, step, kind);
      SendOtherEdges(s, step, kind);
    case ReceiveWord(_) =>
      RecvOwnEdges(s, step, kind);
      RecvOtherEdges(s, step, kind);
  }

  // ---- control writes that come out of a register table ----

  /** A control write sets no bit outside its mask. */
  predicate WithinMask(step: Step) { step.WriteFifoCnt? ==> step.value & !step.mask == 0 }

  lemma BitWithinMask(mask: bv16, value: bv16, b: bv16)
    requires value & !mask == 0 && Bit(value, b) && (b == 0x4 || b == 0x400)
    ensures Bit(mask, b)
  {
  }

  lemma NoPhantom(s: State, step: Step, cpu: Cpu, kind: Kind)
    requires WithinMask(step)
    ensures !Phantom(s, step, cpu, kind)
  {
    if step.WriteFifoCnt? && Bit(step.value, EnableBit(kind)) {
      BitWithinMask(step.mask, step.value, EnableBit(kind));
    }
  }

  /** A FIFO interrupt is raised exactly when its condition becomes true. */
  lemma InterruptsAreEdges(s: State, step: Step, cpu: Cpu, kind: Kind)
    requires Invariant(s) && !Panics(s, step) && !kind.SyncIrq? && WithinMask(step)
    ensures Raised(s, step, cpu, kind) <==> Rises(s, step, cpu, kind)
  {
    EdgesOrPhantoms(s, step, cpu, kind);
    NoPhantom(s, step, cpu, kind);
  }

  /** The value of a two-byte register from its bytes. */
  function Half(b0: bv8, b1: bv8): bv16 { (b0 as bv16) | ((b1 as bv16) << 8) }

  lemma HalfWithin(a0: bv8, a1: bv8, m0: bv8, m1: bv8)
    requires a0 & !m0 == 0 && a1 & !m1 == 0
    ensures Half(a0, a1) & !Half(m0, m1) == 0
  {
  }

  lemma WriteWithin(cpu: Cpu, a0: bv8, a1: bv8, m0: bv8, m1: bv8)
    requires a0 & !m0 == 0 && a1 & !m1 == 0
    ensures WithinMask(WriteFifoCnt(cpu, Half(m0, m1), Half(a0, a1)))
  {
    HalfWithin(a0, a1, m0, m1);
  }

  const FIFO_CNT := IoTable.Entry(0x184, 2)

  /** The control write that a call with this mask and argument makes. */
  function Called(cpu: Cpu, mask: IoTable.Word, arg: IoTable.Word): Step {
    WriteFifoCnt(cpu, Half(mask[0], mask[1]), Half(arg[0], arg[1]))
  }

  lemma TwoBytesAreMasked(entries: seq<IoTable.Entry>, i: nat, addr: nat, w: nat)
    requires i < |entries| && entries[i].size == 2 && IoTable.Width(w)
    ensures !IoTable.WriteFor(entries, i, addr, w).Plain?
  {
  }

  lemma ArgumentWithin(entries: seq<IoTable.Entry>, i: nat, addr: nat, w: nat, value: IoTable.Word, op: IoTable.WriteOp)
    requires i < |entries| && entries[i].size == 2 && IoTable.Width(w) && IoTable.FitsSize(value, w)
    requires op == IoTable.WriteFor(entries, i, addr, w) && !op.Plain?
    ensures var arg := IoTable.Argument(op, value, 2); arg[0] & !op.mask[0] == 0 && arg[1] & !op.mask[1] == 0
  {
    IoTable.WritesStayInMask(entries, i, addr, w, value, 0);
    IoTable.WritesStayInMask(entries, i, addr, w, value, 1);
  }

  lemma CalledWithin(cpu: Cpu, mask: IoTable.Word, arg: IoTable.Word)
    requires arg[0] & !mask[0] == 0 && arg[1] & !mask[1] == 0
    ensures WithinMask(Called(cpu, mask, arg))
  {
    WriteWithin(cpu, arg[0], arg[1], mask[0], mask[1]);
  }

  /** Whatever else a register table holds, a control write that it compiles, for an access of any width
      and value, sets no bit outside its mask. */
  lemma TableWritesAreWithinMask(entries: seq<IoTable.Entry>, i: nat, addr: nat, w: nat, value: IoTable.Word, cpu: Cpu)
    requires i < |entries| && entries[i] == FIFO_CNT && IoTable.Width(w) && IoTable.FitsSize(value, w)
    ensures var op := IoTable.WriteFor(entries, i, addr, w);
      !op.Plain? && WithinMask(Called(cpu, op.mask, IoTable.Argument(op, value, 2)))
  {
    TwoBytesAreMasked(entries, i, addr, w);
    var op := IoTable.WriteFor(entries, i, addr, w);
    ArgumentWithin(entries, i, addr, w, value, op);
    CalledWithin(cpu, op.mask, IoTable.Argument(op, value, 2));
  }
}
