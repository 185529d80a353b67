/**
 What each line of a cheat code does, in terms of the bytes of a memory that reads back what was written:
 which bytes change and to what, which comparison decides, and what offset and data are afterwards.
 */
module CheatEffects {
  import opened Machine
  import opened Cheats

  type Bytes = U32 -> U8

  /** Byte `k` of a word, lowest first. */
  function ByteOf(v: U32, k: nat): U8 {
    if k == 0 then v % 0x100
    else if k == 1 then v / 0x100 % 0x100
    else if k == 2 then v / 0x1_0000 % 0x100
    else v / 0x100_0000 % 0x100
  }

  function Word(b: Bytes, a: U32): U32 {
    b(a) + 0x100 * b(Up(a, 1)) + 0x1_0000 * b(Up(a, 2)) + 0x100_0000 * b(Up(a, 3))
  }

  function Half(b: Bytes, a: U32): U32 { b(a) + 0x100 * b(Up(a, 1)) }

  /** The address `n` bytes on, in 32 bits, and how far an address is behind another. */
  function Up(a: U32, n: U32): U32 { (a + n) % 0x1_0000_0000 }

  function Behind(x: U32, a: U32): U32 { (x - a) % 0x1_0000_0000 }

  /** `size` bytes at `a` now hold `v`, and all others what they held. */
  ghost predicate Stored(before: Bytes, after: Bytes, a: U32, size: nat, v: U32) {
    forall x: U32 :: after(x) == if Behind(x, a) < size then ByteOf(v, Behind(x, a)) else before(x)
  }

  /** Memory seen as bytes: reads are little-endian and change nothing, writes change the bytes they address. */
  ghost predicate ReadsBack<M(!new)>(bus: Bus<M>, view: M -> Bytes) {
    && (forall m, a: U32 :: bus.read(m, 4, a) == (Word(view(m), a), m))
    && (forall m, a: U32 :: bus.read(m, 2, a) == (Half(view(m), a), m))
    && (forall m, a: U32 :: bus.read(m, 1, a) == (view(m)(a), m))
    && (forall m, size, a: U32, v: U32 :: size == 1 || size == 2 || size == 4 ==>
          Stored(view(m), view(bus.write(m, size, a, v)), a, size, v))
  }

  /** Such a memory: the bytes themselves. */
  function Poked(b: Bytes, size: nat, a: U32, v: U32): Bytes {
    (x: U32) => if Behind(x, a) < size then ByteOf(v, Behind(x, a)) else b(x)
  }

  function Peeked(b: Bytes, size: nat, a: U32): U32 {
    if size == 4 then Word(b, a) else if size == 2 then Half(b, a) else b(a)
  }

  function Flat(): Bus<Bytes> {
    Bus((b: Bytes, size: nat, a: U32) => (Peeked(b, size, a), b),
        (b: Bytes, size: nat, a: U32, v: U32) => Poked(b, size, a, v))
  }

  lemma FlatReadsBack()
    ensures ReadsBack(Flat(), (b: Bytes) => b)
  {
  }

  /** The interpreter is at this line. */
  predicate At<M>(code: Code, s: Cpu<M>, op0: U32, op1: U32) {
    s.addr + 1 < |code| && code[s.addr] == op0 && code[s.addr + 1] == op1
  }

  /** Nothing but memory changes, and the next line follows. */
  ghost predicate OnlyMemory<M>(s: Cpu<M>, t: Cpu<M>) { t == s.(mem := t.mem, addr := s.addr + 2) }

  lemma UpIsAdd(a: U32, b: U32)
    ensures Add(a, b) == Up(a, b) == Up(b, a)
  {
  }

  // With the flag clear a line is executed; its top digits say as what.
  lemma ClearStep<M>(bus: Bus<M>, code: Code, s: Cpu<M>, op0: U32, v: U32)
    requires !s.cond && At(code, s, op0, v)
    ensures var t := Execute(bus, code, op0, v, s); Step(bus, code, s) == t.(addr := t.addr + 2)
  {
  }

  lemma LowStep<M>(bus: Bus<M>, code: Code, s: Cpu<M>, op0: U32, v: U32)
    requires !s.cond && At(code, s, op0, v) && op0 < 0xC000_0000
    ensures var t := ExecuteLow(bus, op0 / 0x1000_0000, op0, v, s); Step(bus, code, s) == t.(addr := s.addr + 2)
  {
    ClearStep(bus, code, s, op0, v);
    LowKeepsControl(bus, op0 / 0x1000_0000, op0, v, s);
  }

  lemma DStep<M>(bus: Bus<M>, code: Code, s: Cpu<M>, op0: U32, v: U32)
    requires !s.cond && At(code, s, op0, v) && op0 / 0x1000_0000 == 0xD
    ensures var t := ExecuteD(bus, op0 / 0x100_0000, v, s); Step(bus, code, s) == t.(addr := t.addr + 2)
  {
    ClearStep(bus, code, s, op0, v);
  }

  lemma CStep<M>(bus: Bus<M>, code: Code, s: Cpu<M>, op0: U32, v: U32)
    requires !s.cond && At(code, s, op0, v) && op0 / 0x1000_0000 == 0xC
    ensures var t := ExecuteC(bus, op0 / 0x100_0000, v, s); Step(bus, code, s) == t.(addr := t.addr + 2)
  {
    ClearStep(bus, code, s, op0, v);
  }

  // ---- writes ----

  /** Cutting a value to the bytes that are stored leaves those bytes. */
  lemma CutBytes(v: U32)
    ensures ByteOf(v % 0x100, 0) == ByteOf(v, 0)
    ensures ByteOf(v % 0x1_0000, 0) == ByteOf(v, 0) && ByteOf(v % 0x1_0000, 1) == ByteOf(v, 1)
  {
    var q, h, l := v / 0x1_0000, v % 0x1_0000 / 0x100, v % 0x1_0000 % 0x100;
    assert v == 0x1_0000 * q + 0x100 * h + l;
    assert v / 0x100 == 0x100 * q + h && v % 0x100 == l;
    assert (0x100 * q + h) % 0x100 == h && h % 0x100 == h && l % 0x100 == l;
  }

  lemma CutStored(before: Bytes, after: Bytes, a: U32, v: U32)
    ensures Stored(before, after, a, 2, v % 0x1_0000) ==> Stored(before, after, a, 2, v)
    ensures Stored(before, after, a, 1, v % 0x100) ==> Stored(before, after, a, 1, v)
  {
    CutBytes(v);
  }

  /** How many bytes the first opcodes write. */
  function Size(kind: nat): nat { if kind == 0 then 4 else if kind == 1 then 2 else 1 }

  lemma Writes<M(!new)>(bus: Bus<M>, view: M -> Bytes, m: M, size: nat, a: U32, v: U32)
    requires ReadsBack(bus, view) && (size == 1 || size == 2 || size == 4)
    ensures Stored(view(m), view(bus.write(m, size, a, v)), a, size, v)
  {
  }

  /** A value cut to the bytes that are written. */
  function Cut(v: U32, size: nat): U32 { if size == 4 then v else if size == 2 then v % 0x1_0000 else v % 0x100 }

  lemma WritesCut<M(!new)>(bus: Bus<M>, view: M -> Bytes, m: M, size: nat, a: U32, v: U32)
    requires ReadsBack(bus, view) && (size == 1 || size == 2 || size == 4)
    ensures Stored(view(m), view(bus.write(m, size, a, Cut(v, size))), a, size, v)
  {
    Writes(bus, view, m, size, a, Cut(v, size));
    CutStored(view(m), view(bus.write(m, size, a, Cut(v, size))), a, v);
  }

  /** Opcodes 0, 1 and 2 store their operand in four, two or one bytes at their address past the offset. */
  lemma WriteLine<M(!new)>(bus: Bus<M>, view: M -> Bytes, code: Code, s: Cpu<M>, op0: U32, v: U32)
    requires ReadsBack(bus, view) && !s.cond && op0 < 0x3000_0000 && At(code, s, op0, v)
    ensures var t := Step(bus, code, s);
      && OnlyMemory(s, t)
      && Stored(view(s.mem), view(t.mem), Up(op0 % 0x1000_0000, s.offset), Size(op0 / 0x1000_0000), v)
  {
    LowStep(bus, code, s, op0, v);
    UpIsAdd(op0 % 0x1000_0000, s.offset);
    WritesCut(bus, view, s.mem, Size(op0 / 0x1000_0000), Up(op0 % 0x1000_0000, s.offset), v);
  }

  /** C6 stores the offset itself. */
  lemma StoreOffsetLine<M(!new)>(bus: Bus<M>, view: M -> Bytes, code: Code, s: Cpu<M>, op0: U32, a: U32)
    requires ReadsBack(bus, view) && !s.cond && op0 / 0x100_0000 == 0xC6 && At(code, s, op0, a)
    ensures var t := Step(bus, code, s); OnlyMemory(s, t) && Stored(view(s.mem), view(t.mem), a, 4, s.offset)
  {
    CStep(bus, code, s, op0, a);
    Writes(bus, view, s.mem, 4, a, s.offset);
  }

  /** D6, D7 and D8 store the data in four, two or one bytes and move the offset on behind them. */
  lemma StoreLine<M(!new)>(bus: Bus<M>, view: M -> Bytes, code: Code, s: Cpu<M>, op0: U32, a: U32)
    requires ReadsBack(bus, view) && !s.cond && 0xD6 <= op0 / 0x100_0000 <= 0xD8 && At(code, s, op0, a)
    ensures var t := Step(bus, code, s); var size := Size(op0 / 0x100_0000 - 0xD6);
      && t == s.(mem := t.mem, offset := Up(s.offset, size), addr := s.addr + 2)
      && Stored(view(s.mem), view(t.mem), Up(a, s.offset), size, s.data)
  {
    var size := Size(op0 / 0x100_0000 - 0xD6);
    DStep(bus, code, s, op0, a);
    UpIsAdd(a, s.offset);
    UpIsAdd(s.offset, size);
    WritesCut(bus, view, s.mem, size, Up(a, s.offset), s.data);
  }

  // ---- reads ----

  lemma Reads<M(!new)>(bus: Bus<M>, view: M -> Bytes, m: M, a: U32)
    requires ReadsBack(bus, view)
    ensures bus.read(m, 4, a) == (Word(view(m), a), m) && bus.read(m, 2, a) == (Half(view(m), a), m)
    ensures bus.read(m, 1, a) == (view(m)(a), m)
    ensures Half(view(m), a) % 0x1_0000 == Half(view(m), a) < 0x1_0000 && view(m)(a) % 0x100 == view(m)(a)
  {
    SmallRemainder(Half(view(m), a), 0x1_0000);
    SmallRemainder(view(m)(a), 0x100);
  }

  /** D9, DA and DB load the data from four, two or one bytes and leave the offset. */
  lemma LoadLine<M(!new)>(bus: Bus<M>, view: M -> Bytes, code: Code, s: Cpu<M>, op0: U32, a: U32)
    requires ReadsBack(bus, view) && !s.cond && 0xD9 <= op0 / 0x100_0000 <= 0xDB && At(code, s, op0, a)
    ensures var b, from, op := view(s.mem), Up(a, s.offset), op0 / 0x100_0000;
      Step(bus, code, s)
      == s.(data := if op == 0xD9 then Word(b, from) else if op == 0xDA then Half(b, from) else b(from),
            addr := s.addr + 2)
  {
    DStep(bus, code, s, op0, a);
    UpIsAdd(a, s.offset);
    Reads(bus, view, s.mem, Up(a, s.offset));
  }

  /** B loads the offset itself, from its address past the old offset. */
  lemma LoadOffsetLine<M(!new)>(bus: Bus<M>, view: M -> Bytes, code: Code, s: Cpu<M>, op0: U32, v: U32)
    requires ReadsBack(bus, view) && !s.cond && op0 / 0x1000_0000 == 0xB && At(code, s, op0, v)
    ensures Step(bus, code, s)
         == s.(offset := Word(view(s.mem), Up(op0 % 0x1000_0000, s.offset)), addr := s.addr + 2)
  {
    LowStep(bus, code, s, op0, v);
    UpIsAdd(op0 % 0x1000_0000, s.offset);
    Reads(bus, view, s.mem, Up(op0 % 0x1000_0000, s.offset));
  }

  // ---- registers ----

  /** D3 and DC set and add to the offset, D4 and D5 add to and set the data. */
  lemma RegisterLine<M>(bus: Bus<M>, code: Code, s: Cpu<M>, op0: U32, v: U32)
    requires !s.cond && At(code, s, op0, v)
    requires 0xD3 <= op0 / 0x100_0000 <= 0xD5 || op0 / 0x100_0000 == 0xDC
    ensures var t, op := Step(bus, code, s), op0 / 0x100_0000;
      && t == s.(offset := t.offset, data := t.data, addr := s.addr + 2)
      && t.offset == (if op == 0xD3 then v else if op == 0xDC then Up(s.offset, v) else s.offset)
      && t.data == (if op == 0xD4 then Up(s.data, v) else if op == 0xD5 then v else s.data)
  {
    DStep(bus, code, s, op0, v);
    UpIsAdd(s.offset, v);
    UpIsAdd(s.data, v);
  }

  /** C5 counts, and compares the counter under the low half of the operand with the high half. */
  lemma CounterLine<M>(bus: Bus<M>, code: Code, s: Cpu<M>, op0: U32, v: U32)
    requires !s.cond && op0 / 0x100_0000 == 0xC5 && At(code, s, op0, v)
    ensures var counter := Up(s.counter, 1); var low: U16 := counter % 0x1_0000; var mask: U16 := v % 0x1_0000;
      Step(bus, code, s)
      == s.(counter := counter, cond := (low as bv16 & mask as bv16) as U16 != v / 0x1_0000, addr := s.addr + 2)
  {
    CStep(bus, code, s, op0, v);
    UpIsAdd(s.counter, 1);
  }

  /** D0 ends a condition, whatever the flag; so do D1 and D2 on the last repetition, and D2 clears offset
      and data as well. */
  lemma EndLine<M>(bus: Bus<M>, code: Code, s: Cpu<M>, op0: U32, v: U32)
    requires At(code, s, op0, v)
    requires op0 / 0x100_0000 == 0xD0 || (0xD1 <= op0 / 0x100_0000 <= 0xD2 && s.loopCount == 0)
    ensures var flush := op0 / 0x100_0000 == 0xD2;
      Step(bus, code, s)
      == s.(cond := false, offset := if flush then 0 else s.offset, data := if flush then 0 else s.data,
            addr := s.addr + 2)
  {
    assert op0 / 0x1000_0000 == 0xD;
    assert Step(bus, code, s)
        == ExecuteD(bus, op0 / 0x100_0000, v, s).(addr := ExecuteD(bus, op0 / 0x100_0000, v, s).addr + 2);
  }

  /** Lines that are no instruction do nothing. */
  lemma OtherLine<M>(bus: Bus<M>, code: Code, s: Cpu<M>, op0: U32, v: U32)
    requires !s.cond && At(code, s, op0, v)
    requires var op := op0 / 0x100_0000; 0xC1 <= op <= 0xC4 || 0xC7 <= op <= 0xCF || 0xDD <= op <= 0xDF
    ensures Step(bus, code, s) == s.(addr := s.addr + 2)
  {
    ClearStep(bus, code, s, op0, v);
  }

  /** Under a set flag everything but D0, D1 and D2 is passed over: inline parameters with their line, and
      the counter still counts. */
  lemma SkippedLine<M>(bus: Bus<M>, code: Code, s: Cpu<M>, op0: U32, v: U32)
    requires s.cond && At(code, s, op0, v) && !(0xD0 <= op0 / 0x100_0000 <= 0xD2)
    ensures Step(bus, code, s)
      == s.(counter := if op0 / 0x100_0000 == 0xC5 then Up(s.counter, 1) else s.counter,
            addr := s.addr + 2 + if op0 / 0x1000_0000 == 0xE then (v + 7) / 8 * 2 else 0)
  {
    UpIsAdd(s.counter, 1);
  }

  // ---- conditions ----

  /** Where a condition looks. */
  function Looked(op0: U32, offset: U32): U32 { if op0 % 0x1000_0000 != 0 then op0 % 0x1000_0000 else offset }

  /** The four comparisons of a value with memory: greater, less, equal, not equal. */
  predicate Compares(k: nat, value: U32, memory: U32) {
    if k == 0 then value > memory
    else if k == 1 then memory > value
    else if k == 2 then memory == value
    else memory != value
  }

  /** Opcodes 3 to 6 set the flag exactly if the operand does not compare as they ask with the word. */
  lemma WordConditionLine<M(!new)>(bus: Bus<M>, view: M -> Bytes, code: Code, s: Cpu<M>, op0: U32, v: U32)
    requires ReadsBack(bus, view) && !s.cond && 3 <= op0 / 0x1000_0000 <= 6 && At(code, s, op0, v)
    ensures Step(bus, code, s)
      == s.(cond := !Compares(op0 / 0x1000_0000 - 3, v, Word(view(s.mem), Looked(op0, s.offset))), addr := s.addr + 2)
  {
    LowStep(bus, code, s, op0, v);
    Reads(bus, view, s.mem, Looked(op0, s.offset));
  }

  /** The bits of a half without those that another names. */
  function Without(half: U16, without: U16): U16 { (half as bv16 & !(without as bv16)) as U16 }

  lemma HalfExecutes<M>(bus: Bus<M>, op0: U32, v: U32, s: Cpu<M>, half: U16, memory: U16)
    requires 7 <= op0 / 0x1000_0000 <= 0xA && bus.read(s.mem, 2, Looked(op0, s.offset)) == (half, s.mem)
    requires half % 0x1_0000 == half && memory == AndNot16(half, v / 0x1_0000)
    ensures ExecuteLow(bus, op0 / 0x1000_0000, op0, v, s)
         == s.(cond := !Compares(op0 / 0x1000_0000 - 7, v % 0x1_0000, memory))
  {
    HalfCompares(op0 / 0x1000_0000, v % 0x1_0000, memory);
  }

  lemma HalfCompares(kind: nat, value: U32, memory: U32)
    requires 7 <= kind <= 0xA
    ensures HalfFails(kind, value, memory) == !Compares(kind - 7, value, memory)
  {
  }

  lemma WithoutIsAndNot(half: U16, without: U16)
    ensures Without(half, without) == AndNot16(half, without)
  {
  }

  /** Opcodes 7 to A compare the low half of the operand with a half of memory, without the bits that the
      high half names. */
  lemma HalfConditionLine<M(!new)>(bus: Bus<M>, view: M -> Bytes, code: Code, s: Cpu<M>, op0: U32, v: U32)
    requires ReadsBack(bus, view) && !s.cond && 7 <= op0 / 0x1000_0000 <= 0xA && At(code, s, op0, v)
    ensures var memory := Without(Half(view(s.mem), Looked(op0, s.offset)), v / 0x1_0000);
      Step(bus, code, s)
      == s.(cond := !Compares(op0 / 0x1000_0000 - 7, v % 0x1_0000, memory), addr := s.addr + 2)
  {
    LowStep(bus, code, s, op0, v);
    var half := Half(view(s.mem), Looked(op0, s.offset));
    Reads(bus, view, s.mem, Looked(op0, s.offset));
    WithoutIsAndNot(half, v / 0x1_0000);
    HalfExecutes(bus, op0, v, s, half, Without(half, v / 0x1_0000));
  }

  // ---- copies ----

  /** The `n` bytes at `a` now are what `source` says, and all others are what they were. */
  ghost predicate Filled(before: Bytes, after: Bytes, a: U32, n: U32, source: U32 -> U8) {
    forall x: U32 :: after(x) == if Behind(x, a) < n then source(Behind(x, a)) else before(x)
  }

  lemma BehindIs(x: U32, a: U32, n: U32)
    ensures Behind(x, a) == n <==> x == Up(a, n)
  {
  }

  /** One more byte behind the `n` that are there. */
  lemma FilledOneMore(before: Bytes, middle: Bytes, after: Bytes, a: U32, n: U32, source: U32 -> U8, b: U8)
    requires n < U32_MAX && Filled(before, middle, a, n, source) && b == source(n)
    requires forall x: U32 :: after(x) == if x == Up(a, n) then b else middle(x)
    ensures Filled(before, after, a, n + 1, source)
  {
    forall x: U32
      ensures after(x) == if Behind(x, a) < n + 1 then source(Behind(x, a)) else before(x)
    {
      BehindIs(x, a, n);
    }
  }

  lemma WritesByte<M(!new)>(bus: Bus<M>, view: M -> Bytes, m: M, a: U32, v: U8)
    requires ReadsBack(bus, view)
    ensures forall x: U32 :: view(bus.write(m, 1, a, v))(x) == if x == a then v else view(m)(x)
  {
    Writes(bus, view, m, 1, a, v);
    forall x: U32
      ensures view(bus.write(m, 1, a, v))(x) == if x == a then v else view(m)(x)
    {
      BehindIs(x, a, 0);
    }
  }

  lemma StoresOneMore<M(!new)>(bus: Bus<M>, view: M -> Bytes, before: Bytes, m: M, a: U32, n: U32, source: U32 -> U8,
                               b: U8)
    requires ReadsBack(bus, view) && n < U32_MAX && Filled(before, view(m), a, n, source) && b == source(n)
    ensures Filled(before, view(bus.write(m, 1, Add(a, n), b)), a, n + 1, source)
  {
    UpIsAdd(a, n);
    WritesByte(bus, view, m, Up(a, n), b);
    FilledOneMore(before, view(m), view(bus.write(m, 1, Add(a, n), b)), a, n, source, b);
  }

  /** Byte `k` of the parameters behind a line, the code's own words from the lowest byte up, and 0 past its
      end. */
  function Parameter(code: Code, addr: nat, k: U32): U8 {
    ByteOf(if addr + 2 + k / 4 < |code| then code[addr + 2 + k / 4] else 0, k % 4)
  }

  lemma {:induction false} CopiesParams<M(!new)>(bus: Bus<M>, view: M -> Bytes, code: Code, addr: nat, target: U32,
                                                 m: M, n: U32, source: U32 -> U8)
    requires ReadsBack(bus, view) && forall k: U32 :: source(k) == Parameter(code, addr, k)
    ensures Filled(view(m), view(CopyParams(bus, code, addr, target, m, n)), target, n, source)
    decreases n
  {
    if n > 0 {
      CopiesParams(bus, view, code, addr, target, m, n - 1, source);
      var middle := CopyParams(bus, code, addr, target, m, n - 1);
      CopiesOneMore(bus, view, code, addr, target, view(m), middle, n - 1, source);
    }
  }

  lemma CopiesOneMore<M(!new)>(bus: Bus<M>, view: M -> Bytes, code: Code, addr: nat, target: U32, before: Bytes, m: M,
                               k: U32, source: U32 -> U8)
    requires ReadsBack(bus, view) && k < U32_MAX && source(k) == Parameter(code, addr, k)
    requires Filled(before, view(m), target, k, source)
    ensures Filled(before, view(bus.write(m, 1, Add(target, k), ParamByte(code, addr, k))), target, k + 1, source)
  {
    ParamIsByte(code, addr, k);
    StoresOneMore(bus, view, before, m, target, k, source, ParamByte(code, addr, k));
  }

  lemma ParamIsByte(code: Code, addr: nat, k: U32)
    ensures ParamByte(code, addr, k) == Parameter(code, addr, k)
  {
  }

  /** E stores as many of the bytes behind it in the code as its operand says, and steps over them in whole
      lines. */
  lemma ParametersLine<M(!new)>(bus: Bus<M>, view: M -> Bytes, code: Code, s: Cpu<M>, op0: U32, n: U32)
    requires ReadsBack(bus, view) && !s.cond && op0 / 0x1000_0000 == 0xE && At(code, s, op0, n)
    ensures var t := Step(bus, code, s);
      && t == s.(mem := t.mem, addr := s.addr + 2 + (n + 7) / 8 * 2)
      && Filled(view(s.mem), view(t.mem), Up(op0 % 0x1000_0000, s.offset), n, k => Parameter(code, s.addr, k))
  {
    ClearStep(bus, code, s, op0, n);
    UpIsAdd(op0 % 0x1000_0000, s.offset);
    CopiesParams(bus, view, code, s.addr, Up(op0 % 0x1000_0000, s.offset), s.mem, n, k => Parameter(code, s.addr, k));
  }

  /** The byte that a copy leaves at its `k`-th place: the source's `k`-th, or, where the copy has run into its
      own result, the one as many bytes earlier as target and source are apart. */
  function Copied(b: Bytes, from: U32, to: U32, k: U32): U8 {
    b(Up(from, if Behind(to, from) == 0 then k else k % Behind(to, from)))
  }

  lemma BehindTo(from: U32, to: U32, k: U32, apart: U32)
    requires apart == Behind(to, from)
    ensures Behind(Up(from, k), to) == if k >= apart then k - apart else k - apart + 0x1_0000_0000
  {
    assert to == from + apart || to == from + apart - 0x1_0000_0000;
    assert Up(from, k) == from + k || Up(from, k) == from + k - 0x1_0000_0000;
  }

  lemma EarlierByte(k: U32, apart: U32, back: int)
    requires back == if k >= apart then k - apart else k - apart + 0x1_0000_0000
    ensures 0 <= back < k ==> k >= apart > 0 && back == k - apart && k % apart == back % apart
    ensures apart > 0 && back >= k ==> k % apart == k
    ensures apart == 0 ==> back == k
  {
    if k >= apart > 0 {
      ModAddsSize(k - apart, apart);
    } else if apart > 0 {
      SmallRemainder(k, apart);
    }
  }

  /** What the `k`-th read finds, after the first `k` bytes. */
  lemma ReadsCopied(b: Bytes, middle: Bytes, from: U32, to: U32, k: U32)
    requires Filled(b, middle, to, k, j => Copied(b, from, to, j))
    ensures middle(Up(from, k)) == Copied(b, from, to, k)
  {
    var apart, back := Behind(to, from), Behind(Up(from, k), to);
    BehindTo(from, to, k, apart);
    EarlierByte(k, apart, back);
    assert middle(Up(from, k)) == if back < k then Copied(b, from, to, back) else b(Up(from, k));
  }

  lemma {:induction false} CopiesMemory<M(!new)>(bus: Bus<M>, view: M -> Bytes, from: U32, to: U32, m: M, n: U32)
    requires ReadsBack(bus, view)
    ensures Filled(view(m), view(CopyMemory(bus, from, to, m, n)), to, n, k => Copied(view(m), from, to, k))
    decreases n
  {
    if n > 0 {
      CopiesMemory(bus, view, from, to, m, n - 1);
      var middle := CopyMemory(bus, from, to, m, n - 1);
      var b := Copied(view(m), from, to, n - 1);
      UpIsAdd(from, n - 1);
      Reads(bus, view, middle, Up(from, n - 1));
      ReadsCopied(view(m), view(middle), from, to, n - 1);
      StoresOneMore(bus, view, view(m), middle, to, n - 1, k => Copied(view(m), from, to, k), b);
    }
  }

  /** F copies as many bytes as its operand says from the offset on, a byte at a time. */
  lemma CopyLine<M(!new)>(bus: Bus<M>, view: M -> Bytes, code: Code, s: Cpu<M>, op0: U32, n: U32)
    requires ReadsBack(bus, view) && !s.cond && op0 / 0x1000_0000 == 0xF && At(code, s, op0, n)
    ensures var t, to := Step(bus, code, s), op0 % 0x1000_0000;
      OnlyMemory(s, t) && Filled(view(s.mem), view(t.mem), to, n, k => Copied(view(s.mem), s.offset, to, k))
  {
    ClearStep(bus, code, s, op0, n);
    CopiesMemory(bus, view, s.offset, op0 % 0x1000_0000, s.mem, n);
  }

  // ---- whole codes ----

  lemma RunsOn<M>(bus: Bus<M>, code: Code, s: Cpu<M>, t: Cpu<M>, inLoop: bool)
    requires Sound(s, inLoop) && s.addr + 1 < |code| && t == Step(bus, code, s) && !ExecutesC0(code, s)
    ensures Sound(t, inLoop) && Final(bus, code, s, inLoop) == Final(bus, code, t, inLoop)
  {
    StepDecreases(bus, code, s, inLoop);
  }

  /** Whether the comparison a condition line asks for holds of what memory holds. */
  predicate Asks(b: Bytes, op0: U32, v: U32, offset: U32)
    requires 3 <= op0 / 0x1000_0000 <= 0xA
  {
    var kind, a := op0 / 0x1000_0000, Looked(op0, offset);
    if kind <= 6 then Compares(kind - 3, v, Word(b, a))
    else Compares(kind - 7, v % 0x1_0000, Without(Half(b, a), v / 0x1_0000))
  }

  lemma ConditionLine<M(!new)>(bus: Bus<M>, view: M -> Bytes, code: Code, s: Cpu<M>, op0: U32, v: U32)
    requires ReadsBack(bus, view) && !s.cond && 3 <= op0 / 0x1000_0000 <= 0xA && At(code, s, op0, v)
    ensures Step(bus, code, s) == s.(cond := !Asks(view(s.mem), op0, v, s.offset), addr := s.addr + 2)
  {
    if op0 / 0x1000_0000 <= 6 {
      WordConditionLine(bus, view, code, s, op0, v);
    } else {
      HalfConditionLine(bus, view, code, s, op0, v);
    }
  }

  /** The last two lines of a code, a condition and a write. */
  lemma GuardedWriteEnds<M(!new)>(bus: Bus<M>, view: M -> Bytes, code: Code, s: Cpu<M>, asked: U32, v: U32,
                                  written: U32, w: U32)
    requires ReadsBack(bus, view) && Sound(s, false) && !s.cond && |code| == s.addr + 4
    requires code[s.addr..] == [asked, v, written, w]
    requires 3 <= asked / 0x1000_0000 <= 0xA && written < 0x3000_0000
    ensures var after := Final(bus, code, s, false).mem;
      if Asks(view(s.mem), asked, v, s.offset) then
        Stored(view(s.mem), view(after), Up(written % 0x1000_0000, s.offset), Size(written / 0x1000_0000), w)
      else after == s.mem
  {
    assert forall k :: 0 <= k < 4 ==> code[s.addr + k] == code[s.addr..][k];
    var t := s.(cond := !Asks(view(s.mem), asked, v, s.offset), addr := s.addr + 2);
    ConditionLine(bus, view, code, s, asked, v);
    RunsOn(bus, code, s, t, false);
    if t.cond {
      SkippedLine(bus, code, t, written, w);
    } else {
      WriteLine(bus, view, code, t, written, w);
    }
    RunsOn(bus, code, t, Step(bus, code, t), false);
  }

  /** A code of a condition and a write: the memory it leaves is the written one if the comparison holds, and the
      old one if it does not. */
  lemma ConditionGuardsWrite<M(!new)>(bus: Bus<M>, view: M -> Bytes, code: Code, m: M, asked: U32, v: U32, written: U32,
                                      w: U32)
    requires ReadsBack(bus, view) && code == [asked, v, written, w]
    requires 3 <= asked / 0x1000_0000 <= 0xA && written < 0x3000_0000
    ensures Sound(Initial(m), false)
    ensures var after := Final(bus, code, Initial(m), false).mem;
      if Asks(view(m), asked, v, 0) then
        Stored(view(m), view(after), written % 0x1000_0000, Size(written / 0x1000_0000), w)
      else after == m
  {
    var s: Cpu<M> := Initial(m);
    assert code[0..] == code;
    UpByNone(written % 0x1000_0000);
    GuardedWriteEnds(bus, view, code, s, asked, v, written, w);
  }

  lemma UpByNone(a: U32)
    ensures Up(a, 0) == a
  {
  }

  /** With the offset set before, a condition with no address looks there, and the write goes past it. */
  lemma OffsetGuardsWrite<M(!new)>(bus: Bus<M>, view: M -> Bytes, code: Code, m: M, offset: U32, asked: U32, v: U32,
                                   written: U32, w: U32)
    requires ReadsBack(bus, view) && code == [0xD300_0000, offset, asked, v, written, w]
    requires 3 <= asked / 0x1000_0000 <= 0xA && written < 0x3000_0000
    ensures Sound(Initial(m), false)
    ensures var after := Final(bus, code, Initial(m), false).mem;
      if Asks(view(m), asked, v, offset) then
        Stored(view(m), view(after), Up(written % 0x1000_0000, offset), Size(written / 0x1000_0000), w)
      else after == m
  {
    var s: Cpu<M> := Initial(m);
    var t := s.(offset := offset, addr := 2);
    RegisterLine(bus, code, s, 0xD300_0000, offset);
    RunsOn(bus, code, s, t, false);
    GuardedWriteEnds(bus, view, code, t, asked, v, written, w);
  }
}
