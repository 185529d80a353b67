/** The two sides as objects whose queues are rings, updated in place as the register handlers do. */
module IpcPorts {
  import opened Rings
  import opened Ipc

  /** One processor's registers and its ring of 16 words. */
  class Side {
    var cnt: Cnt
    var last: bv32
    var sync: bv16
    const queue: FixedFifo<bv32>

    ghost function Repr(): set<object> { {this, queue, queue.fifo} }

    ghost predicate Valid()
      reads this, queue
    {
      queue.Valid() && queue.fifo.Length == 16
    }

    ghost function Value(): Port
      reads this, queue, queue.fifo
      requires Valid()
    {
      Port(cnt, queue.Contents(), last, sync)
    }

    constructor ()
      ensures Valid() && fresh(Repr()) && Value() == START.arm9
    {
      cnt, last, sync := CNT0, 0, 0;
      queue := new FixedFifo<bv32>(16);
    }
  }

  ghost predicate Apart(me: Side, you: Side) { me.Repr() !! you.Repr() }

  ghost predicate Ready(me: Side, you: Side)
    reads me.Repr(), you.Repr()
  {
    Apart(me, you) && me.Valid() && you.Valid()
  }

  /** What the objects hold afterwards is the effect. */
  ghost predicate Shows(me: Side, you: Side, irqs: seq<Interrupt>, e: Effect)
    reads me.Repr(), you.Repr()
  {
    Ready(me, you) && me.Value() == e.me && you.Value() == e.you && irqs == e.irqs
  }

  method StoreSync(me: Side, you: Side, mine: bv16, yours: bv16)
    requires Ready(me, you)
    modifies me`sync, you`sync
    ensures Ready(me, you) && me.Value() == old(me.Value()).(sync := mine)
    ensures you.Value() == old(you.Value()).(sync := yours)
  {
    me.sync := mine;
    you.sync := yours;
  }

  method SetSyncReg(cpu: Cpu, me: Side, you: Side, mask: bv16, value: bv16) returns (irqs: seq<Interrupt>)
    requires Ready(me, you)
    modifies me, you
    ensures Shows(me, you, irqs, SetSync(cpu, old(me.Value()), old(you.Value()), mask, value))
  {
    StoreSync(me, you, SyncOut(me.sync, mask, value), SyncIn(you.sync, mask, value));
    irqs := [];
    if SyncRaises(value, you.sync) {
      irqs := [Interrupt(Other(cpu), SyncIrq)];
    }
  }

  /** Sending into an enabled queue with room: the word goes in, and the edges are marked on both sides. */
  method Enqueue(cpu: Cpu, me: Side, you: Side, word: bv32) returns (irqs: seq<Interrupt>)
    requires Ready(me, you) && me.cnt.enable && me.queue.len < 16
    modifies me, me.queue, me.queue.fifo, you
    ensures Shows(me, you, irqs, Send(cpu, old(me.Value()), old(you.Value()), word))
  {
    irqs := [];
    ghost var was, other := me.Value(), you.Value();
    var fifoLen := me.queue.len;
    me.queue.PushBack(word);
    assert me.Value() == was.(queue := was.queue + [word]) && you.Value() == other;
    if fifoLen == 0 {
      me.cnt := me.cnt.(sendEmpty := false);
      you.cnt := you.cnt.(recvEmpty := false);
      if you.cnt.recvIrq {
        irqs := [Interrupt(Other(cpu), RecvNotEmptyIrq)];
      }
    } else if fifoLen == 15 {
      me.cnt := me.cnt.(sendFull := true);
      you.cnt := you.cnt.(recvFull := true);
    }
  }

  method FifoSend(cpu: Cpu, me: Side, you: Side, mask: bv32, value: bv32) returns (irqs: seq<Interrupt>)
    requires Ready(me, you)
    modifies me, me.queue, me.queue.fifo, you
    ensures Shows(me, you, irqs, Send(cpu, old(me.Value()), old(you.Value()), value & mask))
  {
    irqs := [];
    if me.cnt.enable {
      if me.queue.len < 16 {
        irqs := Enqueue(cpu, me, you, value & mask);
      }
    } else {
      me.cnt := me.cnt.(err := true);
    }
  }

  /** Receiving from a filled queue while enabled: the word is taken out, and the edges are marked. */
  method Dequeue(cpu: Cpu, me: Side, you: Side) returns (irqs: seq<Interrupt>)
    requires Ready(me, you) && me.cnt.enable && you.queue.len > 0
    modifies me, you, you.queue
    ensures Shows(me, you, irqs, Recv(cpu, old(me.Value()), old(you.Value())))
  {
    irqs := [];
    var otherLen := you.queue.len;
    me.last := you.queue.Front();
    you.queue.PopFront();
    if otherLen == 1 {
      me.cnt := me.cnt.(recvEmpty := true);
      you.cnt := you.cnt.(sendEmpty := true);
      if you.cnt.sendEmptyIrq {
        irqs := [Interrupt(Other(cpu), SendEmptyIrq)];
      }
    } else if otherLen == 16 {
      me.cnt := me.cnt.(recvFull := false);
      you.cnt := you.cnt.(sendFull := false);
    }
  }

  method FifoRecv(cpu: Cpu, me: Side, you: Side) returns (word: bv32, irqs: seq<Interrupt>)
    requires Ready(me, you)
    modifies me, you, you.queue
    ensures Shows(me, you, irqs, Recv(cpu, old(me.Value()), old(you.Value())))
    ensures word == me.last
  {
    irqs := [];
    if you.queue.len > 0 {
      if me.cnt.enable {
        irqs := Dequeue(cpu, me, you);
      } else {
        me.last := you.queue.Front();
      }
    } else {
      me.cnt := me.cnt.(err := true);
    }
    word := me.last;
  }

  method ClearQueue(me: Side, you: Side)
    requires Ready(me, you)
    modifies me, me.queue, you
    ensures Ready(me, you) && me.Value() == Cleared(old(me.Value()))
    ensures you.Value() == old(you.Value()).(cnt := old(you.cnt).(recvEmpty := true, recvFull := false))
  {
    me.queue.Clear();
    me.last := 0;
    me.cnt := me.cnt.(sendEmpty := true, sendFull := false);
    you.cnt := you.cnt.(recvEmpty := true, recvFull := false);
  }

  /** The interrupts, the acknowledgement and the masked write, after the clear. */
  method WriteControl(cpu: Cpu, me: Side, mask: bv16, value: bv16) returns (irqs: seq<Interrupt>)
    modifies me
    ensures irqs == CntIrqs(cpu, old(me.cnt), value)
    ensures me.cnt == WriteCnt(Acknowledged(old(me.cnt), value), mask, value)
    ensures me.last == old(me.last) && me.sync == old(me.sync)
  {
    irqs := [];
    if me.cnt.sendEmpty && !me.cnt.sendEmptyIrq && Bit(value, 0x4) {
      irqs := irqs + [Interrupt(cpu, SendEmptyIrq)];
    }
    if !me.cnt.recvEmpty && !me.cnt.recvIrq && Bit(value, 0x400) {
      irqs := irqs + [Interrupt(cpu, RecvNotEmptyIrq)];
    }
    if Bit(value, 0x4000) {
      me.cnt := me.cnt.(err := false);
    }
    me.cnt := WriteCnt(me.cnt, mask, value);
  }

  method SetFifoCnt(cpu: Cpu, me: Side, you: Side, mask: bv16, value: bv16) returns (irqs: seq<Interrupt>)
    requires Ready(me, you) && !(Clears(me.Value(), value) && me.cnt.sendEmptyIrq)
    modifies me, me.queue, you
    ensures Shows(me, you, irqs, SetCnt(cpu, old(me.Value()), old(you.Value()), mask, value))
  {
    if Bit(value, 0x8) && me.queue.len != 0 {
      ClearQueue(me, you);
    }
    irqs := WriteControl(cpu, me, mask, value);
  }

  /** One register access by the processor `me`; a receive also returns its word. */
  method Act(me: Side, you: Side, step: Step) returns (word: bv32, irqs: seq<Interrupt>)
    requires Ready(me, you)
    requires step.WriteFifoCnt? ==> !(Clears(me.Value(), step.value) && me.cnt.sendEmptyIrq)
    modifies me.Repr(), you.Repr()
    ensures Shows(me, you, irqs, EffectOf(old(me.Value()), old(you.Value()), step))
    ensures step.ReceiveWord? ==> word == me.last
  {
    word := 0;
    match step {
      case WriteSync(cpu, mask, value) => irqs := SetSyncReg(cpu, me, you, mask, value);
      case WriteFifoCnt(cpu, mask, value) => irqs := SetFifoCnt(cpu, me, you, mask, value);
      case SendWord(cpu, mask, value) => irqs := FifoSend(cpu, me, you, mask, value);
      case ReceiveWord(cpu) => word, irqs := FifoRecv(cpu, me, you);
    }
  }

  /** The whole device: the side of the processor that acts, and the other one. */
  class Device {
    const arm9: Side
    const arm7: Side
    var irqs: seq<Interrupt>

    ghost function Repr(): set<object> { {this} + arm9.Repr() + arm7.Repr() }

    ghost predicate Valid()
      reads Repr()
    {
      this !in arm9.Repr() && this !in arm7.Repr() && Ready(arm9, arm7)
    }

    ghost function Value(): State
      reads Repr()
      requires Valid()
    {
      State(arm9.Value(), arm7.Value(), irqs)
    }

    constructor ()
      ensures Valid() && fresh(Repr()) && Value() == START
    {
      arm9 := new Side();
      arm7 := new Side();
      irqs := [];
    }

    /** One register access; a receive also returns its word. */
    method Access(step: Step) returns (word: bv32)
      requires Valid() && !Panics(Value(), step)
      modifies Repr()
      ensures Valid() && Value() == Next(old(Value()), step)
      ensures step.ReceiveWord? ==> word == Value().At(step.cpu).last
    {
      var raised;
      if step.cpu.Arm9? {
        word, raised := Act(arm9, arm7, step);
      } else {
        word, raised := Act(arm7, arm9, step);
      }
      irqs := irqs + raised;
    }
  }
}
