/**
 What each access between the processors does, bit by bit: to both control registers, both sync registers,
 the queues, the last word received and the interrupts, and to nothing else.
 */
module IpcEffects {
  import opened Ipc

  predicate Has(register: bv16, b: bv16) { register & b != 0 }

  /** A write takes this bit from the value if the mask has it, and leaves it otherwise. */
  predicate Takes(after: bv16, before: bv16, mask: bv16, value: bv16, b: bv16) {
    Has(after, b) == if Has(mask, b) then Has(value, b) else Has(before, b)
  }

  /** The same for a bit of the other side's register, eight places below the bit that is written. */
  predicate Hands(after: bv16, before: bv16, mask: bv16, value: bv16, b: bv16, from: bv16) {
    Has(after, b) == if Has(mask, from) then Has(value, from) else Has(before, b)
  }

  // ---- the sync register ----

  lemma OutTakes(sync: bv16, mask: bv16, value: bv16, b: bv16)
    requires b == 0x100 || b == 0x200 || b == 0x400 || b == 0x800 || b == 0x4000
    ensures Takes(SyncOut(sync, mask, value), sync, mask, value, b)
  {
  }

  lemma OutKeeps(sync: bv16, mask: bv16, value: bv16)
    ensures SyncOut(sync, mask, value) & 0xB0FF == sync & 0xB0FF
  {
  }

  lemma InHands(sync: bv16, mask: bv16, value: bv16)
    ensures Hands(SyncIn(sync, mask, value), sync, mask, value, 1, 0x100)
    ensures Hands(SyncIn(sync, mask, value), sync, mask, value, 2, 0x200)
  {
  }

  lemma InHandsHigh(sync: bv16, mask: bv16, value: bv16)
    ensures Hands(SyncIn(sync, mask, value), sync, mask, value, 4, 0x400)
    ensures Hands(SyncIn(sync, mask, value), sync, mask, value, 8, 0x800)
  {
  }

  lemma InKeeps(sync: bv16, mask: bv16, value: bv16)
    ensures SyncIn(sync, mask, value) & 0xFFF0 == sync & 0xFFF0
  {
  }

  /** A side's register after it was written: the output nibble and the interrupt enable, no other bit. */
  predicate Output(after: bv16, before: bv16, mask: bv16, value: bv16) {
    && Takes(after, before, mask, value, 0x100) && Takes(after, before, mask, value, 0x200)
    && Takes(after, before, mask, value, 0x400) && Takes(after, before, mask, value, 0x800)
    && Takes(after, before, mask, value, 0x4000) && after & 0xB0FF == before & 0xB0FF
  }

  /** The other side's register then: the input nibble, no other bit. */
  predicate Input(after: bv16, before: bv16, mask: bv16, value: bv16) {
    && Hands(after, before, mask, value, 1, 0x100) && Hands(after, before, mask, value, 2, 0x200)
    && Hands(after, before, mask, value, 4, 0x400) && Hands(after, before, mask, value, 8, 0x800)
    && after & 0xFFF0 == before & 0xFFF0
  }

  lemma OutIsOutput(sync: bv16, mask: bv16, value: bv16)
    ensures Output(SyncOut(sync, mask, value), sync, mask, value)
  {
    OutTakes(sync, mask, value, 0x100);
    OutTakes(sync, mask, value, 0x200);
    OutTakes(sync, mask, value, 0x400);
    OutTakes(sync, mask, value, 0x800);
    OutTakes(sync, mask, value, 0x4000);
    OutKeeps(sync, mask, value);
  }

  lemma InIsInput(sync: bv16, mask: bv16, value: bv16)
    ensures Input(SyncIn(sync, mask, value), sync, mask, value)
  {
    InHands(sync, mask, value);
    InHandsHigh(sync, mask, value);
    InKeeps(sync, mask, value);
  }

  lemma NextIs(s: State, step: Step)
    ensures var e, t := EffectOf(s.At(step.cpu), s.At(Other(step.cpu)), step), Next(s, step);
      t.At(step.cpu) == e.me && t.At(Other(step.cpu)) == e.you && t.irqs == s.irqs + e.irqs
  {
  }

  /** A write to a sync register: its output nibble and interrupt enable are taken from the value under the mask,
      the nibble reaches the other side's input, and nothing else changes. An interrupt goes to the other side
      exactly if the value asks for one and that side lets it. */
  lemma SyncWriteEffect(s: State, cpu: Cpu, mask: bv16, value: bv16)
    ensures var t, you := Next(s, WriteSync(cpu, mask, value)), Other(cpu);
      && t.At(cpu) == s.At(cpu).(sync := t.At(cpu).sync) && t.At(you) == s.At(you).(sync := t.At(you).sync)
      && Output(t.At(cpu).sync, s.At(cpu).sync, mask, value) && Input(t.At(you).sync, s.At(you).sync, mask, value)
      && t.irqs == s.irqs + if Has(value, 0x2000) && Has(s.At(you).sync, 0x4000) then [Interrupt(you, SyncIrq)] else []
  {
    var you := Other(cpu);
    NextIs(s, WriteSync(cpu, mask, value));
    OutIsOutput(s.At(cpu).sync, mask, value);
    InIsInput(s.At(you).sync, mask, value);
    EnableKept(SyncIn(s.At(you).sync, mask, value), s.At(you).sync);
  }

  lemma EnableKept(after: bv16, before: bv16)
    requires after & 0xFFF0 == before & 0xFFF0
    ensures Has(after, 0x4000) == Has(before, 0x4000)
  {
    assert after & 0x4000 == (after & 0xFFF0) & 0x4000;
    assert before & 0x4000 == (before & 0xFFF0) & 0x4000;
  }

  // ---- the FIFOs ----

  /** Where each field stands in the control register. */
  lemma StatusPlaces(c: Cnt)
    ensures Has(Bits(c), 0x1) == c.sendEmpty && Has(Bits(c), 0x2) == c.sendFull && Has(Bits(c), 0x8) == c.sendClear
    ensures Has(Bits(c), 0x100) == c.recvEmpty && Has(Bits(c), 0x200) == c.recvFull && Has(Bits(c), 0x4000) == c.err
  {
  }

  lemma ControlPlaces(c: Cnt)
    ensures Has(Bits(c), 0x4) == c.sendEmptyIrq && Has(Bits(c), 0x400) == c.recvIrq && Has(Bits(c), 0x8000) == c.enable
    ensures Bits(c) & 0x38F0 == 0
  {
  }

  /** One word more in the sender's queue, at its end, and the status bits of both sides following. */
  predicate Queued(me: Port, you: Port, me': Port, you': Port, word: bv32) {
    var n := |me.queue|;
    && me'.queue == me.queue + [word] && me'.last == me.last && me'.sync == me.sync
    && (n == 0 ==> me'.cnt == me.cnt.(sendEmpty := false) && you' == you.(cnt := you.cnt.(recvEmpty := false)))
    && (n == 15 ==> me'.cnt == me.cnt.(sendFull := true) && you' == you.(cnt := you.cnt.(recvFull := true)))
    && (0 < n < 15 ==> me'.cnt == me.cnt && you' == you)
  }

  lemma SendQueues(cpu: Cpu, me: Port, you: Port, word: bv32)
    requires me.cnt.enable && |me.queue| < 16
    ensures var e := Send(cpu, me, you, word); Queued(me, you, e.me, e.you, word)
  {
  }

  lemma SendInterrupts(cpu: Cpu, me: Port, you: Port, word: bv32)
    ensures Send(cpu, me, you, word).irqs
         == if me.cnt.enable && |me.queue| == 0 && you.cnt.recvIrq then [Interrupt(Other(cpu), RecvNotEmptyIrq)] else []
  {
  }

  predicate SendOutcome(me: Port, you: Port, me': Port, you': Port, word: bv32) {
    if !me.cnt.enable then me' == me.(cnt := me.cnt.(err := true)) && you' == you
    else if |me.queue| >= 16 then me' == me && you' == you
    else Queued(me, you, me', you', word)
  }

  lemma Sends(cpu: Cpu, me: Port, you: Port, word: bv32)
    ensures var e := Send(cpu, me, you, word); SendOutcome(me, you, e.me, e.you, word)
  {
    if me.cnt.enable && |me.queue| < 16 {
      SendQueues(cpu, me, you, word);
    }
  }

  lemma SendStep(s: State, step: Step, me: Port, you: Port)
    requires step.SendWord? && me == s.At(step.cpu) && you == s.At(Other(step.cpu))
    ensures EffectOf(me, you, step) == Send(step.cpu, me, you, step.word & step.sendMask)
    ensures var e, t := EffectOf(me, you, step), Next(s, step);
      t.At(step.cpu) == e.me && t.At(Other(step.cpu)) == e.you && t.irqs == s.irqs + e.irqs
  {
    NextIs(s, step);
  }

  /** Sending while disabled sets the error bit of the sender; sending into a full queue does nothing; any other
      word is queued under its mask. */
  lemma SendEffect(s: State, step: Step)
    requires step.SendWord?
    ensures var t, cpu := Next(s, step), step.cpu;
      SendOutcome(s.At(cpu), s.At(Other(cpu)), t.At(cpu), t.At(Other(cpu)), step.word & step.sendMask)
  {
    SendStep(s, step, s.At(step.cpu), s.At(Other(step.cpu)));
    Sends(step.cpu, s.At(step.cpu), s.At(Other(step.cpu)), step.word & step.sendMask);
  }

  /** The receiver is interrupted exactly if its queue was empty, the word was queued, and it asked for that. */
  lemma SendInterruptsReceiver(s: State, step: Step)
    requires step.SendWord?
    ensures var me, you := s.At(step.cpu), s.At(Other(step.cpu));
      Next(s, step).irqs
      == s.irqs + if me.cnt.enable && |me.queue| == 0 && you.cnt.recvIrq then
                    [Interrupt(Other(step.cpu), RecvNotEmptyIrq)]
                  else []
  {
    SendStep(s, step, s.At(step.cpu), s.At(Other(step.cpu)));
    SendInterrupts(step.cpu, s.At(step.cpu), s.At(Other(step.cpu)), step.word & step.sendMask);
  }

  /** The first word of the sender's queue gone to the receiver, and the status bits of both sides following. */
  predicate Taken(me: Port, you: Port, me': Port, you': Port)
    requires you.queue != []
  {
    var n := |you.queue|;
    && me'.last == you.queue[0] && me'.queue == me.queue && me'.sync == me.sync
    && you'.queue == you.queue[1..] && you'.last == you.last && you'.sync == you.sync
    && (n == 1 ==> me'.cnt == me.cnt.(recvEmpty := true) && you'.cnt == you.cnt.(sendEmpty := true))
    && (n == 16 ==> me'.cnt == me.cnt.(recvFull := false) && you'.cnt == you.cnt.(sendFull := false))
    && (n != 1 && n != 16 ==> me'.cnt == me.cnt && you'.cnt == you.cnt)
  }

  lemma ReceiveTakes(cpu: Cpu, me: Port, you: Port)
    requires me.cnt.enable && you.queue != []
    ensures var e := Recv(cpu, me, you); Taken(me, you, e.me, e.you)
  {
  }

  lemma ReceiveInterrupts(cpu: Cpu, me: Port, you: Port)
    ensures Recv(cpu, me, you).irqs
         == if me.cnt.enable && |you.queue| == 1 && you.cnt.sendEmptyIrq then
              [Interrupt(Other(cpu), SendEmptyIrq)]
            else []
  {
  }

  /** Receiving from an empty queue sets the receiver's error bit and gives the last word again. Otherwise the first
      word is given; it stays queued while the receiver is disabled, and else is taken. The sender is interrupted
      exactly if that was its last word and it asked for that. */
  lemma ReceiveEffect(s: State, cpu: Cpu)
    ensures var t, me, you := Next(s, ReceiveWord(cpu)), s.At(cpu), s.At(Other(cpu));
      && (if you.queue != [] && me.cnt.enable then Taken(me, you, t.At(cpu), t.At(Other(cpu)))
          else t.At(Other(cpu)) == you
               && t.At(cpu) == if you.queue == [] then me.(cnt := me.cnt.(err := true)) else me.(last := you.queue[0]))
      && t.irqs == s.irqs + if me.cnt.enable && |you.queue| == 1 && you.cnt.sendEmptyIrq then
                              [Interrupt(Other(cpu), SendEmptyIrq)]
                            else []
  {
    var me, you := s.At(cpu), s.At(Other(cpu));
    NextIs(s, ReceiveWord(cpu));
    ReceiveInterrupts(cpu, me, you);
    if you.queue != [] && me.cnt.enable {
      ReceiveTakes(cpu, me, you);
    }
  }

  /** A write to the control register: bit 3 clears a queue that holds words, with the last word received and the
      status bits of both sides; bit 14 clears the error bit whatever the mask; the three writable bits are taken
      under the mask. The writer is interrupted for each condition that holds and that the value newly enables. */
  lemma ControlWriteEffect(s: State, cpu: Cpu, mask: bv16, value: bv16)
    ensures var t, me, you := Next(s, WriteFifoCnt(cpu, mask, value)), s.At(cpu), s.At(Other(cpu));
      var clears := Has(value, 0x8) && me.queue != [];
      && ControlWritten(me, t.At(cpu), mask, value, clears)
      && t.At(Other(cpu)) == if clears then you.(cnt := you.cnt.(recvEmpty := true, recvFull := false)) else you
  {
    NextIs(s, WriteFifoCnt(cpu, mask, value));
    ControlWrites(cpu, s.At(cpu), s.At(Other(cpu)), mask, value);
  }

  /** The writer's side then. */
  predicate ControlWritten(me: Port, me': Port, mask: bv16, value: bv16, clears: bool) {
    && me'.queue == (if clears then [] else me.queue) && me'.last == (if clears then 0 else me.last)
    && me'.sync == me.sync
    && me'.cnt.sendEmpty == (clears || me.cnt.sendEmpty) && me'.cnt.sendFull == (!clears && me.cnt.sendFull)
    && me'.cnt.recvEmpty == me.cnt.recvEmpty && me'.cnt.recvFull == me.cnt.recvFull
    && me'.cnt.sendClear == me.cnt.sendClear && me'.cnt.err == (!Has(value, 0x4000) && me.cnt.err)
    && me'.cnt.sendEmptyIrq == (if Has(mask, 0x4) then Has(value, 0x4) else me.cnt.sendEmptyIrq)
    && me'.cnt.recvIrq == (if Has(mask, 0x400) then Has(value, 0x400) else me.cnt.recvIrq)
    && me'.cnt.enable == (if Has(mask, 0x8000) then Has(value, 0x8000) else me.cnt.enable)
  }

  lemma ControlWrites(cpu: Cpu, me: Port, you: Port, mask: bv16, value: bv16)
    ensures var e, clears := SetCnt(cpu, me, you, mask, value), Has(value, 0x8) && me.queue != [];
      && ControlWritten(me, e.me, mask, value, clears)
      && e.you == if clears then you.(cnt := you.cnt.(recvEmpty := true, recvFull := false)) else you
  {
    var clears := Has(value, 0x8) && me.queue != [];
    var me1 := if clears then Cleared(me) else me;
    SetCntParts(cpu, me, you, mask, value, me1, clears);
    WritesAfterClear(me, me1, mask, value, clears);
  }

  lemma SetCntParts(cpu: Cpu, me: Port, you: Port, mask: bv16, value: bv16, me1: Port, clears: bool)
    requires clears == (Has(value, 0x8) && me.queue != []) && me1 == if clears then Cleared(me) else me
    ensures var e := SetCnt(cpu, me, you, mask, value);
      && e.me == me1.(cnt := WriteCnt(Acknowledged(me1.cnt, value), mask, value))
      && e.you == if clears then you.(cnt := you.cnt.(recvEmpty := true, recvFull := false)) else you
  {
  }

  lemma WritesAfterClear(me: Port, me1: Port, mask: bv16, value: bv16, clears: bool)
    requires me1 == if clears then Cleared(me) else me
    ensures ControlWritten(me, me1.(cnt := WriteCnt(Acknowledged(me1.cnt, value), mask, value)), mask, value, clears)
  {
    var a := Acknowledged(me1.cnt, value);
    ErrorCleared(me1.cnt, value);
    FieldsTaken(a, mask, value);
    ClearedFirst(me, me1, clears);
    FieldsWritten(me, me1, a, WriteCnt(a, mask, value), mask, value, clears);
  }

  predicate AfterClear(me: Port, me1: Port, clears: bool) {
    && me1.queue == (if clears then [] else me.queue) && me1.last == (if clears then 0 else me.last)
    && me1.sync == me.sync
    && me1.cnt == if clears then me.cnt.(sendEmpty := true, sendFull := false) else me.cnt
  }

  predicate ErrorAfter(c: Cnt, a: Cnt, value: bv16) { a == c.(err := !Has(value, 0x4000) && c.err) }

  predicate FieldsAfter(a: Cnt, w: Cnt, mask: bv16, value: bv16) {
    && w == a.(sendEmptyIrq := w.sendEmptyIrq, recvIrq := w.recvIrq, enable := w.enable)
    && w.sendEmptyIrq == (if Has(mask, 0x4) then Has(value, 0x4) else a.sendEmptyIrq)
    && w.recvIrq == (if Has(mask, 0x400) then Has(value, 0x400) else a.recvIrq)
    && w.enable == (if Has(mask, 0x8000) then Has(value, 0x8000) else a.enable)
  }

  lemma ClearedFirst(me: Port, me1: Port, clears: bool)
    requires me1 == if clears then Cleared(me) else me
    ensures AfterClear(me, me1, clears)
  {
  }

  lemma ErrorCleared(c: Cnt, value: bv16)
    ensures ErrorAfter(c, Acknowledged(c, value), value)
  {
    assert c.(err := c.err) == c;
  }

  lemma FieldsTaken(c: Cnt, mask: bv16, value: bv16)
    ensures FieldsAfter(c, WriteCnt(c, mask, value), mask, value)
  {
    Chosen(mask, value, 0x4, c.sendEmptyIrq);
    Chosen(mask, value, 0x400, c.recvIrq);
    Chosen(mask, value, 0x8000, c.enable);
    ThreeFields(c, WriteCnt(c, mask, value), Choose(mask, value, 0x4, c.sendEmptyIrq),
                Choose(mask, value, 0x400, c.recvIrq), Choose(mask, value, 0x8000, c.enable));
  }

  lemma Chosen(mask: bv16, value: bv16, b: bv16, was: bool)
    ensures Choose(mask, value, b, was) == if Has(mask, b) then Has(value, b) else was
  {
  }

  lemma ThreeFields(c: Cnt, w: Cnt, empty: bool, recv: bool, enable: bool)
    requires w == c.(sendEmptyIrq := empty, recvIrq := recv, enable := enable)
    ensures w.sendEmptyIrq == empty && w.recvIrq == recv && w.enable == enable
    ensures w == c.(sendEmptyIrq := w.sendEmptyIrq, recvIrq := w.recvIrq, enable := w.enable)
  {
  }

  lemma FieldsWritten(me: Port, me1: Port, a: Cnt, w: Cnt, mask: bv16, value: bv16, clears: bool)
    requires AfterClear(me, me1, clears) && ErrorAfter(me1.cnt, a, value) && FieldsAfter(a, w, mask, value)
    ensures ControlWritten(me, me1.(cnt := w), mask, value, clears)
  {
  }

  lemma ControlWriteInterrupts(s: State, cpu: Cpu, mask: bv16, value: bv16)
    ensures var t, me := Next(s, WriteFifoCnt(cpu, mask, value)), s.At(cpu);
      var empty := me.cnt.sendEmpty || (Has(value, 0x8) && me.queue != []);
      t.irqs == s.irqs
        + (if empty && !me.cnt.sendEmptyIrq && Has(value, 0x4) then [Interrupt(cpu, SendEmptyIrq)] else [])
        + (if !me.cnt.recvEmpty && !me.cnt.recvIrq && Has(value, 0x400) then [Interrupt(cpu, RecvNotEmptyIrq)] else [])
  {
    var me, you := s.At(cpu), s.At(Other(cpu));
    NextIs(s, WriteFifoCnt(cpu, mask, value));
    var empty := me.cnt.sendEmpty || (Has(value, 0x8) && me.queue != []);
    RaisedAtOnce(cpu, me, you, mask, value, empty);
    Associates(s.irqs, if empty && !me.cnt.sendEmptyIrq && Has(value, 0x4) then [Interrupt(cpu, SendEmptyIrq)] else [],
               if !me.cnt.recvEmpty && !me.cnt.recvIrq && Has(value, 0x400) then
                 [Interrupt(cpu, RecvNotEmptyIrq)]
               else []);
  }

  lemma Associates(a: seq<Interrupt>, b: seq<Interrupt>, c: seq<Interrupt>)
    ensures a + (b + c) == a + b + c
  {
  }

  lemma RaisedAtOnce(cpu: Cpu, me: Port, you: Port, mask: bv16, value: bv16, empty: bool)
    requires empty == (me.cnt.sendEmpty || (Has(value, 0x8) && me.queue != []))
    ensures SetCnt(cpu, me, you, mask, value).irqs
         == (if empty && !me.cnt.sendEmptyIrq && Has(value, 0x4) then [Interrupt(cpu, SendEmptyIrq)] else [])
          + (if !me.cnt.recvEmpty && !me.cnt.recvIrq && Has(value, 0x400) then
               [Interrupt(cpu, RecvNotEmptyIrq)]
             else [])
  {
  }
}
