/**
 The Action Replay interpreter. The memory it runs against is any state at all with read and write
 operations; reading may change it too.
 */
module Cheats {
  import opened Machine

  type Code = seq<U32>

  /** The bus: `size` is 1, 2 or 4 bytes. */
  datatype Bus<!M> = Bus(read: (M, nat, U32) -> (U32, M), write: (M, nat, U32, U32) -> M)

  datatype Cpu<M> = Cpu(offset: U32, data: U32, counter: U32, loopCount: U32, loopAddress: nat, cond: bool, addr: nat,
                        mem: M)

  function Initial<M>(mem: M): Cpu<M> { Cpu(0, 0, 0, 0, 0, false, 0, mem) }

  predicate Halted<M>(code: Code, s: Cpu<M>) { s.addr + 1 >= |code| }

  function Add(a: U32, b: U32): U32 { WrappingAdd(a, b) }

  function Target(op0: U32): U32 { op0 % 0x1000_0000 }

  /** The inline parameters of a parameter copy, in words, rounded up to whole code lines. */
  function ParamWords(op1: U32): nat { (op1 + 7) / 8 * 2 }

  /** A memory condition looks at its address, or at the offset when that is zero. */
  function CondAddr(op0: U32, offset: U32): U32 { if Target(op0) != 0 then Target(op0) else offset }

  /** Bitwise `a & !b` and `a & b` on sixteen bits. */
  function AndNot16(a: U16, b: U16): U16 { (a as bv16 & !(b as bv16)) as U16 }

  function And16(a: U16, b: U16): U16 { (a as bv16 & b as bv16) as U16 }

  // The condition flag is set when the condition does not hold.
  predicate WordFails(kind: nat, value: U32, mem: U32) {
    if kind == 3 then value <= mem
    else if kind == 4 then value >= mem
    else if kind == 5 then value != mem
    else value == mem
  }

  predicate HalfFails(kind: nat, value: U32, mem: U32) {
    if kind == 7 then value <= mem
    else if kind == 8 then value >= mem
    else if kind == 9 then value != mem
    else value == mem
  }

  /** Byte `j` of the words after a parameter copy, 0 past the end of the code. */
  function ParamByte(code: Code, addr: nat, j: nat): U8 {
    var w := if addr + 2 + j / 4 < |code| then code[addr + 2 + j / 4] else 0;
    Le32(w)[j % 4]
  }

  /** The first `n` bytes of a parameter copy. */
  function CopyParams<M>(bus: Bus<M>, code: Code, addr: nat, target: U32, mem: M, n: U32): M
    decreases n
  {
    if n == 0 then mem else
    var before := CopyParams(bus, code, addr, target, mem, n - 1);
    bus.write(before, 1, Add(target, n - 1), ParamByte(code, addr, n - 1))
  }

  /** The first `n` bytes of a memory copy. */
  function CopyMemory<M>(bus: Bus<M>, from: U32, to: U32, mem: M, n: U32): M
    decreases n
  {
    if n == 0 then mem else
    var before := CopyMemory(bus, from, to, mem, n - 1);
    var (value, after) := bus.read(before, 1, Add(from, n - 1));
    bus.write(after, 1, Add(to, n - 1), value % 0x100)
  }

  predicate IsLoopEnd(op: nat) { op == 0xD1 || op == 0xD2 }

  /** What a set condition flag does to a line: parameters are still stepped over and the counter still
      counts, but only D0, D1 and D2 are executed. */
  function Skipped<M>(op0: U32, op1: U32, s: Cpu<M>): Cpu<M> {
    var op := op0 / 0x100_0000;
    if op / 0x10 == 0xE then s.(addr := s.addr + ParamWords(op1))
    else if op == 0xC5 then s.(counter := Add(s.counter, 1))
    else s
  }

  predicate Executes(op0: U32, cond: bool) { !cond || 0xD0 <= op0 / 0x100_0000 <= 0xD2 }

  function ExecuteC<M>(bus: Bus<M>, op: nat, op1: U32, s: Cpu<M>): Cpu<M> {
    if op == 0xC0 then s.(loopCount := op1, loopAddress := s.addr)
    else if op == 0xC5 then
      var counter := Add(s.counter, 1);
      s.(counter := counter, cond := And16(counter % 0x1_0000, op1 % 0x1_0000) != op1 / 0x1_0000)
    else if op == 0xC6 then s.(mem := bus.write(s.mem, 4, op1, s.offset))
    else s
  }

  function ExecuteD<M>(bus: Bus<M>, op: nat, op1: U32, s: Cpu<M>): Cpu<M> {
    if op == 0xD0 then s.(cond := false)
    else if IsLoopEnd(op) && s.loopCount != 0 then s.(loopCount := s.loopCount - 1, addr := s.loopAddress)
    else if op == 0xD1 then s.(cond := false)
    else if op == 0xD2 then s.(offset := 0, data := 0, cond := false)
    else if op == 0xD3 then s.(offset := op1)
    else if op == 0xD4 then s.(data := Add(s.data, op1))
    else if op == 0xD5 then s.(data := op1)
    else if op == 0xD6 then s.(mem := bus.write(s.mem, 4, Add(op1, s.offset), s.data), offset := Add(s.offset, 4))
    else if op == 0xD7 then
      s.(mem := bus.write(s.mem, 2, Add(op1, s.offset), s.data % 0x1_0000), offset := Add(s.offset, 2))
    else if op == 0xD8 then
      s.(mem := bus.write(s.mem, 1, Add(op1, s.offset), s.data % 0x100), offset := Add(s.offset, 1))
    else if op == 0xD9 then var (v, m) := bus.read(s.mem, 4, Add(op1, s.offset)); s.(data := v, mem := m)
    else if op == 0xDA then var (v, m) := bus.read(s.mem, 2, Add(op1, s.offset)); s.(data := v % 0x1_0000, mem := m)
    else if op == 0xDB then var (v, m) := bus.read(s.mem, 1, Add(op1, s.offset)); s.(data := v % 0x100, mem := m)
    else if op == 0xDC then s.(offset := Add(s.offset, op1))
    else s
  }

  /** The opcodes before C: writes, conditions and loading the offset. */
  function ExecuteLow<M>(bus: Bus<M>, kind: nat, op0: U32, op1: U32, s: Cpu<M>): Cpu<M> {
    var target := Add(Target(op0), s.offset);
    if kind == 0 then s.(mem := bus.write(s.mem, 4, target, op1))
    else if kind == 1 then s.(mem := bus.write(s.mem, 2, target, op1 % 0x1_0000))
    else if kind == 2 then s.(mem := bus.write(s.mem, 1, target, op1 % 0x100))
    else if kind <= 6 then
      var (v, m) := bus.read(s.mem, 4, CondAddr(op0, s.offset));
      s.(cond := WordFails(kind, op1, v), mem := m)
    else if kind <= 0xA then
      var (v, m) := bus.read(s.mem, 2, CondAddr(op0, s.offset));
      s.(cond := HalfFails(kind, op1 % 0x1_0000, AndNot16(v % 0x1_0000, op1 / 0x1_0000)), mem := m)
    else var (v, m) := bus.read(s.mem, 4, target); s.(offset := v, mem := m)
  }

  /** One instruction, before the address moves on to the next line. */
  function Execute<M>(bus: Bus<M>, code: Code, op0: U32, op1: U32, s: Cpu<M>): Cpu<M> {
    var kind, op := op0 / 0x1000_0000, op0 / 0x100_0000;
    if kind <= 0xB then ExecuteLow(bus, kind, op0, op1, s)
    else if kind == 0xC then ExecuteC(bus, op, op1, s)
    else if kind == 0xD then ExecuteD(bus, op, op1, s)
    else if kind == 0xE then
      s.(mem := CopyParams(bus, code, s.addr, Add(Target(op0), s.offset), s.mem, op1), addr := s.addr + ParamWords(op1))
    else s.(mem := CopyMemory(bus, s.offset, Target(op0), s.mem, op1))
  }

  /** One round of the interpreter's loop. */
  function Step<M>(bus: Bus<M>, code: Code, s: Cpu<M>): Cpu<M>
    requires !Halted(code, s)
  {
    var op0, op1 := code[s.addr], code[s.addr + 1];
    var s1 := if s.cond then Skipped(op0, op1, s) else s;
    var s2 := if Executes(op0, s.cond) then Execute(bus, code, op0, op1, s1) else s1;
    s2.(addr := s2.addr + 2)
  }

  function Iterate<M>(bus: Bus<M>, code: Code, s: Cpu<M>, n: nat): Cpu<M>
    decreases n
  {
    if n == 0 || Halted(code, s) then s else Iterate(bus, code, Step(bus, code, s), n - 1)
  }

  // ---- why it halts ----

  /** Where the loop being executed starts; before the first C0 there is none. Counted from 1. */
  function LoopMark<M>(s: Cpu<M>, inLoop: bool): nat { if inLoop then s.loopAddress + 1 else 0 }

  /** The address has passed the start of the loop, addresses stay even, and nothing is left to repeat
      before the first C0. */
  ghost predicate Sound<M>(s: Cpu<M>, inLoop: bool) {
    && s.addr % 2 == 0 && s.loopAddress % 2 == 0
    && (if inLoop then s.loopAddress < s.addr else s.loopCount == 0)
  }

  predicate ExecutesC0<M>(code: Code, s: Cpu<M>)
    requires !Halted(code, s)
  {
    !s.cond && code[s.addr] / 0x100_0000 == 0xC0
  }

  /** The measure that every step decreases: the code behind the start of the loop, the repetitions left,
      and the code ahead. */
  function Left(code: Code, addr: nat): nat { if addr < |code| then |code| - addr else 0 }

  predicate Decreases<M>(code: Code, s: Cpu<M>, inLoop: bool, s': Cpu<M>, inLoop': bool) {
    var a, a' := Left(code, LoopMark(s, inLoop)), Left(code, LoopMark(s', inLoop'));
    a' < a || (a' == a && (s'.loopCount < s.loopCount
                           || (s'.loopCount == s.loopCount && Left(code, s'.addr) < Left(code, s.addr))))
  }

  predicate SameControl<M>(s: Cpu<M>, s': Cpu<M>) {
    s'.loopCount == s.loopCount && s'.loopAddress == s.loopAddress && s'.addr == s.addr
  }

  lemma LowKeepsControl<M>(bus: Bus<M>, kind: nat, op0: U32, op1: U32, s: Cpu<M>)
    ensures SameControl(s, ExecuteLow(bus, kind, op0, op1, s))
  {
  }

  lemma ControlOfC<M>(bus: Bus<M>, op: nat, op1: U32, s: Cpu<M>)
    ensures var s' := ExecuteC(bus, op, op1, s);
      if op == 0xC0 then s' == s.(loopCount := op1, loopAddress := s.addr) else SameControl(s, s')
  {
  }

  predicate Repeats<M>(op: nat, s: Cpu<M>) { IsLoopEnd(op) && s.loopCount != 0 }

  lemma ControlOfD<M>(bus: Bus<M>, op: nat, op1: U32, s: Cpu<M>)
    ensures var s' := ExecuteD(bus, op, op1, s);
      if Repeats(op, s) then s' == s.(loopCount := s.loopCount - 1, addr := s.loopAddress) else SameControl(s, s')
  {
  }

  /** All the interpreter does to its control registers in one instruction. */
  predicate Moves<M>(op0: U32, op1: U32, s: Cpu<M>, s': Cpu<M>) {
    var op := op0 / 0x100_0000;
    if op == 0xC0 then s'.loopCount == op1 && s'.loopAddress == s.addr && s'.addr == s.addr
    else if Repeats(op, s) then
      s'.loopCount == s.loopCount - 1 && s'.loopAddress == s.loopAddress && s'.addr == s.loopAddress
    else if op / 0x10 == 0xE then
      s'.loopCount == s.loopCount && s'.loopAddress == s.loopAddress && s'.addr == s.addr + ParamWords(op1)
    else SameControl(s, s')
  }

  lemma ExecuteMoves<M>(bus: Bus<M>, code: Code, op0: U32, op1: U32, s: Cpu<M>)
    ensures Moves(op0, op1, s, Execute(bus, code, op0, op1, s))
  {
    var kind, op := op0 / 0x1000_0000, op0 / 0x100_0000;
    assert kind == op / 0x10;
    if kind <= 0xB {
      LowKeepsControl(bus, kind, op0, op1, s);
    } else if kind == 0xC {
      ControlOfC(bus, op, op1, s);
    } else if kind == 0xD {
      ControlOfD(bus, op, op1, s);
    }
  }

  lemma ParamWordsEven(op1: U32)
    ensures ParamWords(op1) % 2 == 0
  {
    assert ParamWords(op1) == (op1 + 7) / 8 + (op1 + 7) / 8;
  }

  /** What the rounds with a set flag do to the control registers is what executing does, except that a
      C0 is not executed. */
  lemma StepMoves<M>(bus: Bus<M>, code: Code, s: Cpu<M>)
    requires !Halted(code, s)
    ensures var s' := Step(bus, code, s); var op0, op1 := code[s.addr], code[s.addr + 1];
      s'.addr >= 2 &&
      if s.cond && op0 / 0x100_0000 == 0xC0 then SameControl(s.(addr := s.addr + 2), s')
      else Moves(op0, op1, s, s'.(addr := s'.addr - 2))
  {
    var op0, op1 := code[s.addr], code[s.addr + 1];
    var s1 := if s.cond then Skipped(op0, op1, s) else s;
    assert op0 / 0x100_0000 / 0x10 == 0xE ==> !IsLoopEnd(op0 / 0x100_0000);
    if Executes(op0, s.cond) {
      ExecuteMoves(bus, code, op0, op1, s1);
    }
  }

  lemma MovesStaySound<M>(code: Code, op0: U32, op1: U32, s: Cpu<M>, inLoop: bool, t: Cpu<M>)
    requires Sound(s, inLoop) && Moves(op0, op1, s, t) && op0 / 0x100_0000 != 0xC0
    ensures Sound(t.(addr := t.addr + 2), inLoop)
  {
    ParamWordsEven(op1);
  }

  lemma MovesDecrease<M>(code: Code, op0: U32, op1: U32, s: Cpu<M>, inLoop: bool, t: Cpu<M>)
    requires Sound(s, inLoop) && Moves(op0, op1, s, t) && op0 / 0x100_0000 != 0xC0 && s.addr < |code|
    ensures Decreases(code, s, inLoop, t.(addr := t.addr + 2), inLoop)
  {
  }

  lemma StepDecreases<M>(bus: Bus<M>, code: Code, s: Cpu<M>, inLoop: bool)
    requires !Halted(code, s) && Sound(s, inLoop)
    ensures var s' := Step(bus, code, s); var inLoop' := inLoop || ExecutesC0(code, s);
      Sound(s', inLoop') && Decreases(code, s, inLoop, s', inLoop')
  {
    StepMoves(bus, code, s);
    var op0, op1, s' := code[s.addr], code[s.addr + 1], Step(bus, code, s);
    var t := s'.(addr := s'.addr - 2);
    if op0 / 0x100_0000 != 0xC0 {
      MovesStaySound(code, op0, op1, s, inLoop, t);
      MovesDecrease(code, op0, op1, s, inLoop, t);
    }
  }

  /** Where a run ends. That this function exists at all is the termination argument. */
  ghost function Final<M>(bus: Bus<M>, code: Code, s: Cpu<M>, inLoop: bool): Cpu<M>
    requires Sound(s, inLoop)
    decreases Left(code, LoopMark(s, inLoop)), s.loopCount, Left(code, s.addr)
  {
    if Halted(code, s) then s else
    StepDecreases(bus, code, s, inLoop);
    Final(bus, code, Step(bus, code, s), inLoop || ExecutesC0(code, s))
  }

  /** The interpreter halts on every code list, memory and bus: some number of rounds brings it to its end. */
  lemma {:induction false} AlwaysHalts<M>(bus: Bus<M>, code: Code, s: Cpu<M>, inLoop: bool) returns (n: nat)
    requires Sound(s, inLoop)
    ensures Halted(code, Iterate(bus, code, s, n)) && Iterate(bus, code, s, n) == Final(bus, code, s, inLoop)
    decreases Left(code, LoopMark(s, inLoop)), s.loopCount, Left(code, s.addr)
  {
    if Halted(code, s) {
      n := 0;
    } else {
      StepDecreases(bus, code, s, inLoop);
      n := AlwaysHalts(bus, code, Step(bus, code, s), inLoop || ExecutesC0(code, s));
      n := n + 1;
    }
  }

  /** The byte loop of a parameter copy. */
  method WriteParams<M>(bus: Bus<M>, code: Code, addr: nat, target: U32, count: U32, start: M) returns (mem: M)
    ensures mem == CopyParams(bus, code, addr, target, start, count)
  {
    mem := start;
    for j := 0 to count
      invariant mem == CopyParams(bus, code, addr, target, start, j)
    {
      mem := bus.write(mem, 1, Add(target, j), ParamByte(code, addr, j));
    }
  }

  /** The byte loop of a memory copy. */
  method MoveMemory<M>(bus: Bus<M>, from: U32, to: U32, count: U32, start: M) returns (mem: M)
    ensures mem == CopyMemory(bus, from, to, start, count)
  {
    mem := start;
    for j := 0 to count
      invariant mem == CopyMemory(bus, from, to, start, j)
    {
      var (value, after) := bus.read(mem, 1, Add(from, j));
      mem := bus.write(after, 1, Add(to, j), value % 0x100);
    }
  }

  method WordCondition(kind: nat, value: U32, word: U32) returns (fails: bool)
    requires 3 <= kind <= 6
    ensures fails == WordFails(kind, value, word)
  {
    match kind {
      case 3 => fails := value <= word;
      case 4 => fails := value >= word;
      case 5 => fails := value != word;
      case _ => fails := value == word;
    }
  }

  method HalfCondition(kind: nat, value: U32, half: U32) returns (fails: bool)
    requires 7 <= kind <= 0xA
    ensures fails == HalfFails(kind, value, half)
  {
    match kind {
      case 7 => fails := value <= half;
      case 8 => fails := value >= half;
      case 9 => fails := value != half;
      case _ => fails := value == half;
    }
  }

  /** The opcodes before C, on the registers they may change. */
  method RunLow<M>(bus: Bus<M>, op0: U32, op1: U32, ghost s: Cpu<M>, offset0: U32, cond0: bool, mem0: M)
    returns (offset: U32, cond: bool, mem: M)
    requires op0 < 0xC000_0000 && s.offset == offset0 && s.cond == cond0 && s.mem == mem0
    ensures s.(offset := offset, cond := cond, mem := mem) == ExecuteLow(bus, op0 / 0x1000_0000, op0, op1, s)
  {
    offset, cond, mem := offset0, cond0, mem0;
    var kind := op0 / 0x1000_0000;
    var target, condAddr := Add(Target(op0), offset), CondAddr(op0, offset);
    if kind == 0 {
      mem := bus.write(mem, 4, target, op1);
    } else if kind == 1 {
      mem := bus.write(mem, 2, target, op1 % 0x1_0000);
    } else if kind == 2 {
      mem := bus.write(mem, 1, target, op1 % 0x100);
    } else if kind <= 6 {
      var (word, after) := bus.read(mem, 4, condAddr);
      mem := after;
      cond := WordCondition(kind, op1, word);
    } else if kind <= 0xA {
      var (half, after) := bus.read(mem, 2, condAddr);
      mem := after;
      cond := HalfCondition(kind, op1 % 0x1_0000, AndNot16(half % 0x1_0000, op1 / 0x1_0000));
    } else {
      var (word, after) := bus.read(mem, 4, target);
      offset, mem := word, after;
    }
  }

  /** The D opcodes, on the registers they may change. */
  method RunD<M>(bus: Bus<M>, op: nat, op1: U32, ghost s: Cpu<M>, offset0: U32, data0: U32, loopCount0: U32,
                 loopAddress: nat, cond0: bool, addr0: nat, mem0: M)
    returns (offset: U32, data: U32, loopCount: U32, cond: bool, addr: nat, mem: M)
    requires s == Cpu(offset0, data0, s.counter, loopCount0, loopAddress, cond0, addr0, mem0)
    ensures Cpu(offset, data, s.counter, loopCount, loopAddress, cond, addr, mem) == ExecuteD(bus, op, op1, s)
  {
    offset, data, loopCount, cond, addr, mem := offset0, data0, loopCount0, cond0, addr0, mem0;
    match op {
      case 0xD0 => cond := false;
      case 0xD1 =>
        if loopCount != 0 {
          loopCount := loopCount - 1;
          addr := loopAddress;
        } else {
          cond := false;
        }
      case 0xD2 =>
        if loopCount != 0 {
          loopCount := loopCount - 1;
          addr := loopAddress;
        } else {
          offset := 0;
          data := 0;
          cond := false;
        }
      case 0xD3 => offset := op1;
      case 0xD4 => data := Add(data, op1);
      case 0xD5 => data := op1;
      case 0xD6 =>
        mem := bus.write(mem, 4, Add(op1, offset), data);
        offset := Add(offset, 4);
      case 0xD7 =>
        mem := bus.write(mem, 2, Add(op1, offset), data % 0x1_0000);
        offset := Add(offset, 2);
      case 0xD8 =>
        mem := bus.write(mem, 1, Add(op1, offset), data % 0x100);
        offset := Add(offset, 1);
      case 0xD9 =>
        var (value, after) := bus.read(mem, 4, Add(op1, offset));
        data, mem := value, after;
      case 0xDA =>
        var (value, after) := bus.read(mem, 2, Add(op1, offset));
        data, mem := value % 0x1_0000, after;
      case 0xDB =>
        var (value, after) := bus.read(mem, 1, Add(op1, offset));
        data, mem := value % 0x100, after;
      case 0xDC => offset := Add(offset, op1);
      case _ =>
    }
  }

  /** The C opcodes, on the registers they may change. */
  method RunC<M>(bus: Bus<M>, op: nat, op1: U32, ghost s: Cpu<M>, offset: U32, counter0: U32, loopCount0: U32,
                 loopAddress0: nat, cond0: bool, addr: nat, mem0: M)
    returns (counter: U32, loopCount: U32, loopAddress: nat, cond: bool, mem: M)
    requires s == Cpu(offset, s.data, counter0, loopCount0, loopAddress0, cond0, addr, mem0)
    ensures Cpu(offset, s.data, counter, loopCount, loopAddress, cond, addr, mem) == ExecuteC(bus, op, op1, s)
  {
    counter, loopCount, loopAddress, cond, mem := counter0, loopCount0, loopAddress0, cond0, mem0;
    match op {
      case 0xC0 =>
        loopCount := op1;
        loopAddress := addr;
      case 0xC5 =>
        counter := Add(counter, 1);
        cond := And16(counter % 0x1_0000, op1 % 0x1_0000) != op1 / 0x1_0000;
      case 0xC6 => mem := bus.write(mem, 4, op1, offset);
      case _ =>
    }
  }

  /** The match over the top digit of the opcode, on the registers of state `s`. */
  method RunOpcode<M>(bus: Bus<M>, code: Code, op0: U32, op1: U32, s: Cpu<M>) returns (t: Cpu<M>)
    ensures t == Execute(bus, code, op0, op1, s)
  {
    var Cpu(offset, data, counter, loopCount, loopAddress, cond, addr, mem) := s;
    var kind, op := op0 / 0x1000_0000, op0 / 0x100_0000;
    if kind <= 0xB {
      offset, cond, mem := RunLow(bus, op0, op1, s, offset, cond, mem);
    } else if kind == 0xC {
      counter, loopCount, loopAddress, cond, mem :=
        RunC(bus, op, op1, s, offset, counter, loopCount, loopAddress, cond, addr, mem);
    } else if kind == 0xD {
      offset, data, loopCount, cond, addr, mem :=
        RunD(bus, op, op1, s, offset, data, loopCount, loopAddress, cond, addr, mem);
    } else if kind == 0xE {
      mem := WriteParams(bus, code, addr, Add(Target(op0), offset), op1, mem);
      addr := addr + ParamWords(op1);
    } else {
      mem := MoveMemory(bus, offset, Target(op0), op1, mem);
    }
    t := Cpu(offset, data, counter, loopCount, loopAddress, cond, addr, mem);
  }

  /** `run_cheat`: the loop ends, with the memory of the run's last state. */
  method RunCheat<M>(bus: Bus<M>, code: Code, start: M) returns (mem: M)
    ensures mem == Final(bus, code, Initial(start), false).mem
  {
    var s := Initial(start);
    ghost var inLoop := false;
    while s.addr + 1 < |code|
      invariant Sound(s, inLoop)
      invariant Final(bus, code, s, inLoop) == Final(bus, code, Initial(start), false)
      decreases Left(code, LoopMark(s, inLoop)), s.loopCount, Left(code, s.addr)
    {
      StepDecreases(bus, code, s, inLoop);
      inLoop := inLoop || ExecutesC0(code, s);
      s := RunLine(bus, code, s);
    }
    mem := s.mem;
  }

  /** One round: the adjustments made under a set flag, and then the opcode unless it is skipped. */
  method RunLine<M>(bus: Bus<M>, code: Code, s: Cpu<M>) returns (t: Cpu<M>)
    requires !Halted(code, s)
    ensures t == Step(bus, code, s)
  {
    var op0, op1 := code[s.addr], code[s.addr + 1];
    t := s;
    var run := true;
    if s.cond {
      var op := op0 / 0x100_0000;
      if op / 0x10 == 0xE {
        t := t.(addr := t.addr + ParamWords(op1));
      } else if op == 0xC5 {
        t := t.(counter := Add(t.counter, 1));
      }
      run := op == 0xD0 || op == 0xD1 || op == 0xD2;
    }
    if run {
      t := RunOpcode(bus, code, op0, op1, t);
    }
    t := t.(addr := t.addr + 2);
  }

  // ---- what the condition flag protects ----

  predicate Flushes<M>(code: Code, s: Cpu<M>)
    requires !Halted(code, s)
  {
    code[s.addr] / 0x100_0000 == 0xD2 && s.loopCount == 0
  }

  /** Memory, offset and data change only in rounds entered with the flag clear; the one exception is the
      D2 that ends the last repetition, which clears offset, data and flag. Memory is not even read. */
  lemma SetFlagProtects<M>(bus: Bus<M>, code: Code, s: Cpu<M>)
    requires !Halted(code, s) && s.cond
    ensures var s' := Step(bus, code, s);
      s'.mem == s.mem
      && (if Flushes(code, s) then s'.offset == 0 && s'.data == 0 && !s'.cond
          else s'.offset == s.offset && s'.data == s.data)
  {
    var op0, op1 := code[s.addr], code[s.addr + 1];
    if Executes(op0, true) {
      var op := op0 / 0x100_0000;
      assert op / 0x10 == 0xD && op0 / 0x1000_0000 == 0xD;
      var s1 := Skipped(op0, op1, s);
      assert s1 == s;
      assert Execute(bus, code, op0, op1, s) == ExecuteD(bus, op, op1, s);
    }
  }

  /** A set flag is cleared by D0 and by the loop end that does not repeat, and by nothing else: a loop
      end that still repeats goes back with the flag set. */
  lemma FlagClears<M>(bus: Bus<M>, code: Code, s: Cpu<M>)
    requires !Halted(code, s) && s.cond
    ensures var op := code[s.addr] / 0x100_0000;
      Step(bus, code, s).cond <==> !(op == 0xD0 || (IsLoopEnd(op) && s.loopCount == 0))
  {
    var op0, op1 := code[s.addr], code[s.addr + 1];
    if Executes(op0, true) {
      var op := op0 / 0x100_0000;
      assert op0 / 0x1000_0000 == 0xD;
      assert Skipped(op0, op1, s) == s;
      assert Execute(bus, code, op0, op1, s) == ExecuteD(bus, op, op1, s);
    }
  }

  // ---- loops ----

  predicate IsPlain(op0: U32) {
    var op := op0 / 0x100_0000;
    op != 0xC0 && !IsLoopEnd(op) && op / 0x10 != 0xE
  }

  /** `k` lines from `lo` on that are neither loop lines nor parameter copies. */
  predicate Straight(code: Code, lo: nat, k: nat)
    decreases k
  {
    lo < |code| && (k == 0 || (lo + 1 < |code| && IsPlain(code[lo]) && Straight(code, lo + 2, k - 1)))
  }

  lemma {:induction false} StraightRun<M>(bus: Bus<M>, code: Code, s: Cpu<M>, k: nat)
    requires Straight(code, s.addr, k)
    ensures var t := Iterate(bus, code, s, k);
      t.addr == s.addr + k + k && t.loopCount == s.loopCount && t.loopAddress == s.loopAddress
    decreases k
  {
    if k > 0 {
      StepMoves(bus, code, s);
      StraightRun(bus, code, Step(bus, code, s), k - 1);
    }
  }

  /** The state the body starts from when the loop end repeats. */
  function Again<M>(s: Cpu<M>): Cpu<M>
    requires s.loopCount > 0
  {
    s.(loopCount := s.loopCount - 1, addr := s.loopAddress + 2)
  }

  /** The body of `k` lines run once more for each repetition left. */
  function BodyRuns<M>(bus: Bus<M>, code: Code, s: Cpu<M>, k: nat, left: nat): Cpu<M>
    decreases left
  {
    if left == 0 || s.loopCount == 0 then s
    else BodyRuns(bus, code, Iterate(bus, code, Again(s), k), k, left - 1)
  }

  lemma {:induction false} IterateSplits<M>(bus: Bus<M>, code: Code, s: Cpu<M>, m: nat, n: nat)
    ensures Iterate(bus, code, s, m + n) == Iterate(bus, code, Iterate(bus, code, s, m), n)
    decreases m
  {
    if m == 0 {
    } else if Halted(code, s) {
    } else {
      IterateSplits(bus, code, Step(bus, code, s), m - 1, n);
    }
  }

  predicate EndsLoop(code: Code, end: nat, k: nat, mark: nat) {
    && end + 1 < |code| && end == mark + 2 + k + k
    && code[end] / 0x100_0000 == 0xD1 && Straight(code, mark + 2, k)
  }

  lemma LoopEndStep<M>(bus: Bus<M>, code: Code, s: Cpu<M>)
    requires !Halted(code, s) && code[s.addr] / 0x100_0000 == 0xD1
    ensures Step(bus, code, s) == if s.loopCount != 0 then Again(s) else s.(cond := false, addr := s.addr + 2)
  {
    var op0, op1 := code[s.addr], code[s.addr + 1];
    assert op0 / 0x1000_0000 == 0xD;
    assert Executes(op0, s.cond);
    assert Skipped(op0, op1, s) == s;
    assert Execute(bus, code, op0, op1, s) == ExecuteD(bus, 0xD1, op1, s);
  }

  /** One repetition: the step back and the body again. */
  lemma LoopRound<M>(bus: Bus<M>, code: Code, s: Cpu<M>, k: nat)
    requires EndsLoop(code, s.addr, k, s.loopAddress) && s.loopCount > 0
    ensures var next := Iterate(bus, code, Again(s), k);
      next.addr == s.addr && next.loopAddress == s.loopAddress && next.loopCount == s.loopCount - 1
      && Step(bus, code, s) == Again(s)
  {
    LoopEndStep(bus, code, s);
    StraightRun(bus, code, Again(s), k);
  }

  lemma LoopJoin<M>(bus: Bus<M>, code: Code, s: Cpu<M>, t: Cpu<M>, k: nat, m: nat)
    requires !Halted(code, s) && Step(bus, code, s) == t
    ensures Iterate(bus, code, s, 1 + (k + m)) == Iterate(bus, code, Iterate(bus, code, t, k), m)
  {
    IterateSplits(bus, code, t, k, m);
  }

  lemma LoopLast<M>(bus: Bus<M>, code: Code, s: Cpu<M>)
    requires !Halted(code, s) && code[s.addr] / 0x100_0000 == 0xD1 && s.loopCount == 0
    ensures Iterate(bus, code, s, 1) == s.(cond := false, addr := s.addr + 2)
  {
    LoopEndStep(bus, code, s);
    assert Iterate(bus, code, Step(bus, code, s), 0) == Step(bus, code, s);
  }

  lemma {:induction false} LoopTail<M>(bus: Bus<M>, code: Code, s: Cpu<M>, k: nat) returns (n: nat)
    requires EndsLoop(code, s.addr, k, s.loopAddress)
    ensures Iterate(bus, code, s, n) == BodyRuns(bus, code, s, k, s.loopCount).(cond := false, addr := s.addr + 2)
    decreases s.loopCount
  {
    if s.loopCount == 0 {
      LoopLast(bus, code, s);
      n := 1;
    } else {
      LoopRound(bus, code, s, k);
      var next := Iterate(bus, code, Again(s), k);
      var m := LoopTail(bus, code, next, k);
      LoopJoin(bus, code, s, Again(s), k, m);
      n := 1 + (k + m);
      assert BodyRuns(bus, code, s, k, s.loopCount) == BodyRuns(bus, code, next, k, s.loopCount - 1);
    }
  }

  lemma LoopStartStep<M>(bus: Bus<M>, code: Code, s: Cpu<M>)
    requires !Halted(code, s) && ExecutesC0(code, s)
    ensures Step(bus, code, s) == s.(loopCount := code[s.addr + 1], loopAddress := s.addr, addr := s.addr + 2)
  {
    var op0, op1 := code[s.addr], code[s.addr + 1];
    assert op0 / 0x1000_0000 == 0xC;
    assert Execute(bus, code, op0, op1, s) == ExecuteC(bus, 0xC0, op1, s);
  }

  /** A loop with a straight body: C0 with `n` runs the body once and then `n` times again, every line of
      it as the flag then stands, and the loop end leaves the flag clear. */
  lemma LoopRunsItsBody<M>(bus: Bus<M>, code: Code, s: Cpu<M>, k: nat) returns (n: nat)
    requires !Halted(code, s) && ExecutesC0(code, s) && EndsLoop(code, s.addr + 2 + k + k, k, s.addr)
    ensures var body := Iterate(bus, code, Step(bus, code, s), k);
      body.loopCount == code[s.addr + 1]
      && Iterate(bus, code, s, n)
         == BodyRuns(bus, code, body, k, code[s.addr + 1]).(cond := false, addr := s.addr + 4 + k + k)
  {
    LoopStartStep(bus, code, s);
    var first := Step(bus, code, s);
    StraightRun(bus, code, first, k);
    var body := Iterate(bus, code, first, k);
    var m := LoopTail(bus, code, body, k);
    LoopJoin(bus, code, s, first, k, m);
    n := 1 + (k + m);
  }
}
