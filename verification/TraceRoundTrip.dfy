/** Decoding what the logger wrote prints what was logged; decoding any prefix of it prints a prefix. */
module TraceRoundTrip {
  import opened Machine
  import opened TraceFormat
  import opened TraceLog

  /** The lines that a slice access prints when no log is active, which the decoder has to reproduce. */
  function SliceLines(cpu: U8, kind: U8, addr: U32, size: nat, values: seq<U32>, i: nat): seq<Event>
    requires i <= |values|
    decreases |values| - i
  {
    if i == |values| then [] else
    [Access(cpu, kind, WrappingAdd(addr, i * MemStride(kind, size) % 0x1_0000_0000), values[i])]
    + SliceLines(cpu, kind, addr, size, values, i + 1)
  }

  /** What a log call stands for. */
  function Meaning(item: Item): seq<Event> {
    match item
    case Inst(record, _) => [Executed(record)]
    case Text(text, newline) => [TextOut(text, newline)]
    case Mem(cpu, kind, addr, value) => [Access(cpu, kind, addr, value)]
    case MemSlice(cpu, kind, addr, size, values) => SliceLines(cpu, kind, addr, size, values, 0)
  }

  function Meanings(items: seq<Item>): seq<Event> {
    if items == [] then [] else Meaning(items[0]) + Meanings(items[1..])
  }

  /** The decoder's state agrees with the writer's. */
  ghost predicate Mirrors(d: Prevs, w: Prevs2) {
    forall c :: 0 <= c < 2 && w[c].valid ==> d[c] == Some(w[c].record) && w[c].record.cpu == c
  }

  // ---- words ----

  lemma TakeWord(w: U32, ws: seq<U32>, tail: seq<U8>)
    ensures NextWord(Reader(Words([w] + ws) + tail, false)) == (w, Reader(Words(ws) + tail, false))
  {
    assert ([w] + ws)[1..] == ws;
    var bytes := Words([w] + ws) + tail;
    assert bytes == Le32(w) + (Words(ws) + tail);
    assert bytes[..4] == Le32(w) && bytes[4..] == Words(ws) + tail;
    Le32RoundTrip(w);
  }

  lemma TakeUnless(same: bool, w: U32, otherwise: U32, ws: seq<U32>, tail: seq<U8>)
    ensures WordUnless(same, otherwise, Reader(Words(Unless(same, w) + ws) + tail, false))
         == (if same then otherwise else w, Reader(Words(ws) + tail, false))
  {
    if same {
      assert [] + ws == ws;
    } else {
      TakeWord(w, ws, tail);
    }
  }

  lemma {:induction false} WordAt(ws: seq<U32>, i: nat, tail: seq<U8>)
    requires i < |ws|
    ensures Word(Words(ws) + tail, i) == ws[i]
  {
    var bytes := Words(ws) + tail;
    assert bytes == Le32(ws[0]) + (Words(ws[1..]) + tail);
    if i == 0 {
      assert bytes[0..4] == Le32(ws[0]);
      Le32RoundTrip(ws[0]);
    } else {
      WordAt(ws[1..], i - 1, tail);
      assert bytes[4 * i..4 * i + 4] == (Words(ws[1..]) + tail)[4 * (i - 1)..4 * (i - 1) + 4];
    }
  }

  lemma PartialLe32RoundTrip(v: U32, n: nat)
    requires (n == 0 && v == 0) || (n == 1 && v < 0x100) || (n == 2 && v < 0x1_0000) || n == 4
    ensures FromLePadded(Le32(v)[..n]) == v
  {
    var bytes := Le32(v)[..n];
    if n == 0 {
      assert bytes == [];
    } else if n == 1 {
      assert bytes == [v] && bytes[1..] == [];
      assert FromLe(bytes) == bytes[0] as nat + 0x100 * FromLe([]);
    } else if n == 2 {
      var high := bytes[1..];
      assert bytes == [v % 0x100, v / 0x100] && high == [v / 0x100] && high[1..] == [];
      assert FromLe(high) == high[0] as nat + 0x100 * FromLe([]);
      assert FromLe(bytes) == bytes[0] as nat + 0x100 * FromLe(high);
    } else {
      Le32RoundTrip(v);
      assert bytes == Le32(v);
      FromLeOfFour(bytes);
    }
  }

  // ---- instruction records ----

  lemma KeyframeRoundTrip(r: Record, pad: seq<U8>, tail: seq<U8>, d: Prevs)
    requires r.cpu < 2 && |pad| == 3
    ensures StepInst(Words(AllWords(r)) + [r.cpu] + pad + tail, d) == More([Executed(r)], tail, d[r.cpu := Some(r)])
  {
    var ws, rest := AllWords(r), [r.cpu] + pad;
    var bytes := Words(ws) + [r.cpu] + pad + tail;
    assert bytes == (Words(ws) + rest) + tail;
    var buf := bytes[..RECORD_SIZE];
    assert buf == Words(ws) + rest && bytes[RECORD_SIZE..] == tail;
    assert buf[76] == r.cpu;
    forall i | 0 <= i < |ws|
      ensures Word(buf, i) == ws[i]
    {
      WordAt(ws, i, rest);
    }
    var regs := seq(REG_COUNT, i requires 0 <= i < REG_COUNT => Word(buf, i));
    assert regs == r.regs by {
      assert forall i :: 0 <= i < REG_COUNT ==> regs[i] == ws[i];
    }
    assert DecodeRecord(buf) == r;
  }

  lemma {:induction false} ShiftedPack(c: seq<bool>, i: nat)
    requires i <= |c|
    ensures Shifted(Pack(c), i) == Pack(c[i..])
  {
    if i == 0 {
      assert c[0..] == c;
    } else {
      ShiftedPack(c, i - 1);
      assert c[i - 1..][1..] == c[i..];
    }
  }

  lemma PackedBit(c: seq<bool>, i: nat)
    requires i < |c|
    ensures Bit(Pack(c), i) == c[i]
  {
    ShiftedPack(c, i);
    var high := Pack(c[i..][1..]);
    assert c[i..][0] == c[i];
    LowestBit(c[i], high);
  }

  lemma LowestBit(b: bool, high: nat)
    ensures ((if b then 1 else 0) + 2 * high) % 2 == 1 <==> b
  {
  }

  // Reading the registers back overwrites exactly those that changed.
  lemma {:induction false} RegsRoundTrip(p: Record, r: Record, i: nat, regs: seq<U32>, tail: seq<U8>)
    requires i <= REG_COUNT && regs == r.regs[..i] + p.regs[i..]
    ensures ReadRegs(Reader(Words(ChangedWords(p.regs, r.regs, i)) + tail, false), Mask(p, r), regs, i)
         == (r.regs, Reader(tail, false))
    decreases REG_COUNT - i
  {
    if i == REG_COUNT {
      assert regs == r.regs && Words([]) + tail == tail;
    } else {
      var c := Changed(p.regs, r.regs);
      PackedBit(c, i);
      var rest := ChangedWords(p.regs, r.regs, i + 1);
      if c[i] {
        TakeWord(r.regs[i], rest, tail);
        assert regs[i := r.regs[i]] == r.regs[..i + 1] + p.regs[i + 1..];
        RegsRoundTrip(p, r, i + 1, regs[i := r.regs[i]], tail);
      } else {
        assert [] + rest == rest;
        assert regs == r.regs[..i + 1] + p.regs[i + 1..];
        RegsRoundTrip(p, r, i + 1, regs, tail);
      }
    }
  }

  lemma PackFive(c: seq<bool>)
    requires |c| == 5
    ensures Pack(c) == Flag(c[0], 1) + Flag(c[1], 2) + Flag(c[2], 4) + Flag(c[3], 8) + Flag(c[4], 16)
  {
    assert c[1..][1..] == c[2..] && c[2..][1..] == c[3..] && c[3..][1..] == c[4..] && c[4..][1..] == [];
    assert Pack(c[4..]) == Flag(c[4], 1);
    assert Pack(c[3..]) == Flag(c[3], 1) + 2 * Pack(c[4..]);
    assert Pack(c[2..]) == Flag(c[2], 1) + 2 * Pack(c[3..]);
    assert Pack(c[1..]) == Flag(c[1], 1) + 2 * Pack(c[2..]);
  }

  lemma FlagBits(p: Record, r: Record)
    ensures var f := Flags(p, r);
      && (Bit(f, CPU7_BIT) <==> r.cpu == 1)
      && (Bit(f, PC_SEQ_BIT) <==> r.pc == NextPc(p.pc, r.cpsr))
      && (Bit(f, OPCODE_SAME_BIT) <==> r.opcode == p.opcode)
      && (Bit(f, SPSR_SAME_BIT) <==> r.spsr == p.spsr)
      && (Bit(f, CPSR_SAME_BIT) <==> r.cpsr == p.cpsr)
  {
    var c := [r.cpu == 1, r.pc == NextPc(p.pc, r.cpsr), r.opcode == p.opcode, r.spsr == p.spsr, r.cpsr == p.cpsr];
    PackFive(c);
    forall i | 0 <= i < 5
      ensures Bit(Pack(c), i) == c[i]
    {
      PackedBit(c, i);
    }
  }

  lemma RegroupWords(a: seq<U32>, b: seq<U32>, c: seq<U32>, d: seq<U32>, e: seq<U32>)
    ensures a + b + c + d + e == a + (b + (c + (d + e)))
  {
  }

  lemma HeadRoundTrip(p: Record, r: Record, ws: seq<U32>, tail: seq<U8>)
    ensures
      var (pc, r1) := WordUnless(r.pc == NextPc(p.pc, r.cpsr), 0, Reader(Words(HeadWords(p, r) + ws) + tail, false));
      var (cpsr, r2) := WordUnless(r.cpsr == p.cpsr, p.cpsr, r1);
      var (spsr, r3) := WordUnless(r.spsr == p.spsr, p.spsr, r2);
      var (opcode, r4) := WordUnless(r.opcode == p.opcode, p.opcode, r3);
      && (r.pc != NextPc(p.pc, r.cpsr) ==> pc == r.pc)
      && cpsr == r.cpsr && spsr == r.spsr && opcode == r.opcode && r4 == Reader(Words(ws) + tail, false)
  {
    var w1, w2 := Unless(r.pc == NextPc(p.pc, r.cpsr), r.pc), Unless(r.cpsr == p.cpsr, r.cpsr);
    var w3, w4 := Unless(r.spsr == p.spsr, r.spsr), Unless(r.opcode == p.opcode, r.opcode);
    RegroupWords(w1, w2, w3, w4, ws);
    TakeUnless(r.pc == NextPc(p.pc, r.cpsr), r.pc, 0, w2 + (w3 + (w4 + ws)), tail);
    TakeUnless(r.cpsr == p.cpsr, r.cpsr, p.cpsr, w3 + (w4 + ws), tail);
    TakeUnless(r.spsr == p.spsr, r.spsr, p.spsr, w4 + ws, tail);
    TakeUnless(r.opcode == p.opcode, r.opcode, p.opcode, ws, tail);
  }

  lemma ReadDeltaRoundTrip(p: Record, r: Record, tail: seq<U8>)
    requires p.cpu == r.cpu
    ensures ReadDelta(p, Flags(p, r), Mask(p, r),
                      Reader(Words(HeadWords(p, r) + ChangedWords(p.regs, r.regs, 0)) + tail, false))
         == (r, Reader(tail, false))
  {
    FlagBits(p, r);
    HeadRoundTrip(p, r, ChangedWords(p.regs, r.regs, 0), tail);
    RegsRoundTrip(p, r, 0, p.regs, tail);
  }

  lemma DeltaAt(bytes: seq<U8>, p: Record, r: Record, flags: U8, mask: U16, payload: seq<U8>, tail: seq<U8>, d: Prevs)
    requires bytes == [flags, mask % 0x100, mask / 0x100] + payload && d[CpuOf(flags)] == Some(p)
    requires ReadDelta(p, flags, mask, Reader(payload, false)) == (r, Reader(tail, false))
    ensures StepDelta(bytes, d) == More([Executed(r)], tail, d[CpuOf(flags) := Some(r)])
  {
    assert bytes[3..] == payload && bytes[0] == flags;
    assert bytes[1] as int + 0x100 * bytes[2] as int == mask;
  }

  lemma DeltaRoundTrip(p: Record, r: Record, tail: seq<U8>, d: Prevs)
    requires r.cpu < 2 && p.cpu == r.cpu && d[r.cpu] == Some(p)
    ensures StepDelta((EncodeDelta(p, r) + tail)[1..], d) == More([Executed(r)], tail, d[r.cpu := Some(r)])
  {
    var payload := Words(HeadWords(p, r) + ChangedWords(p.regs, r.regs, 0)) + tail;
    var flags, m := Flags(p, r), Mask(p, r);
    var bytes := (EncodeDelta(p, r) + tail)[1..];
    assert bytes == [flags, m % 0x100, m / 0x100] + payload;
    assert CpuOf(flags) == r.cpu by { FlagBits(p, r); }
    ReadDeltaRoundTrip(p, r, tail);
    DeltaAt(bytes, p, r, flags, m, payload, tail, d);
  }

  // ---- text and memory records ----

  lemma TextRoundTrip(text: seq<U8>, newline: bool, tail: seq<U8>, d: Prevs)
    requires |text| <= U32_MAX
    ensures StepsPast(EncodeText(text, newline) + tail, d, [TextOut(text, newline)], tail, d)
  {
    var flag: seq<U8> := [if newline then 1 else 0];
    var bytes := (EncodeText(text, newline) + tail)[1..];
    assert bytes == Le32(|text|) + (text + (flag + tail));
    Le32RoundTrip(|text|);
    assert bytes[..4] == Le32(|text|) && bytes[4..4 + |text|] == text;
    assert bytes[4 + |text|] == flag[0] && bytes[4 + |text| + 1..] == tail;
  }

  lemma MetaFields(cpu: U8, kind: U8, code: nat)
    requires cpu < 2 && kind < 0x10 && code < 4
    ensures var b := MemMeta(cpu, kind, code); b % 0x10 == kind && b / 0x10 % 2 == cpu && b / 0x20 % 4 == code
  {
  }

  lemma MemRoundTrip(cpu: U8, kind: U8, addr: U32, value: U32, tail: seq<U8>, d: Prevs)
    requires cpu < 2 && kind < 7
    ensures StepsPast(EncodeMem(cpu, kind, addr, value) + tail, d, [Access(cpu, kind, addr, value)], tail, d)
  {
    var code := WidthCode(value);
    var width, meta := MemWidth(code), MemMeta(cpu, kind, code);
    var bytes := (EncodeMem(cpu, kind, addr, value) + tail)[1..];
    assert bytes == [meta] + (Le32(addr) + (Le32(value)[..width] + tail));
    MetaFields(cpu, kind, code);
    Le32RoundTrip(addr);
    PartialLe32RoundTrip(value, width);
    MemParts(bytes, meta, Le32(addr), Le32(value)[..width], tail);
  }

  lemma MemParts(bytes: seq<U8>, meta: U8, addr: seq<U8>, value: seq<U8>, tail: seq<U8>)
    requires bytes == [meta] + (addr + (value + tail)) && |addr| == 4
    ensures bytes[1..5] == addr && bytes[5..5 + |value|] == value && bytes[5 + |value|..] == tail
  {
  }

  lemma {:induction false} SliceRoundTrip(cpu: U8, kind: U8, addr: U32, size: nat, values: seq<U32>, i: nat,
                                          tail: seq<U8>)
    requires size == 1 || size == 2 || size == 4
    requires i <= |values| && forall k :: 0 <= k < |values| ==> values[k] < Limit(size)
    ensures SliceEvents(cpu, kind, addr, size, |values|, i, Elements(size, values[i..]) + tail)
         == (SliceLines(cpu, kind, addr, size, values, i), tail)
    decreases |values| - i
  {
    if i == |values| {
      assert values[i..] == [] && [] + tail == tail;
    } else {
      var rest := Elements(size, values[i + 1..]) + tail;
      TakeElement(size, values, i, tail);
      SameAddr(addr, i * MemStride(kind, size));
      SliceRoundTrip(cpu, kind, addr, size, values, i + 1, tail);
      assert SliceEvents(cpu, kind, addr, size, |values|, i, Elements(size, values[i..]) + tail)
          == ([Access(cpu, kind, ElementAddr(addr, i, MemStride(kind, size)), values[i])]
              + SliceEvents(cpu, kind, addr, size, |values|, i + 1, rest).0, tail);
    }
  }

  lemma TakeElement(size: nat, values: seq<U32>, i: nat, tail: seq<U8>)
    requires size == 1 || size == 2 || size == 4
    requires i < |values| && values[i] < Limit(size)
    ensures var bytes := Elements(size, values[i..]) + tail;
      && |bytes| >= size && FromLePadded(bytes[..size]) == values[i]
      && bytes[size..] == Elements(size, values[i + 1..]) + tail
  {
    var v, rest := values[i], Elements(size, values[i + 1..]) + tail;
    assert values[i..][0] == v && values[i..][1..] == values[i + 1..];
    var bytes := Elements(size, values[i..]) + tail;
    assert bytes == Le32(v)[..size] + rest;
    assert bytes[..size] == Le32(v)[..size] && bytes[size..] == rest;
    PartialLe32RoundTrip(v, size);
  }

  lemma SameAddr(addr: U32, offset: nat)
    ensures (addr + offset) % 0x1_0000_0000 == WrappingAdd(addr, offset % 0x1_0000_0000)
  {
    var m := 0x1_0000_0000;
    assert offset == m * (offset / m) + offset % m;
    var low := addr + offset % m;
    assert addr + offset == m * (offset / m) + low;
    assert low < 2 * m;
    if low >= m {
      assert addr + offset == m * (offset / m + 1) + (low - m);
    }
  }

  lemma MemSliceAt(bytes: seq<U8>, cpu: U8, kind: U8, code: nat, addr: U32, count: U32, elements: seq<U8>, d: Prevs)
    requires cpu < 2 && MemIsSlice(kind) && code < 4
    requires bytes == [MemMeta(cpu, kind, code)] + (Le32(addr) + (Le32(count) + elements))
    ensures var (events, rest) := SliceEvents(cpu, kind, addr, MemWidth(code), count, 0, elements);
      StepMem(bytes, d) == More(events, rest, d)
  {
    MetaFields(cpu, kind, code);
    Le32RoundTrip(addr);
    Le32RoundTrip(count);
    assert bytes[1..5] == Le32(addr) && bytes[5..9] == Le32(count) && bytes[9..] == elements;
  }

  lemma MemSliceRoundTrip(cpu: U8, kind: U8, addr: U32, size: nat, values: seq<U32>, tail: seq<U8>, d: Prevs)
    requires Item.MemSlice(cpu, kind, addr, size, values).Ok() && values != []
    ensures StepsPast(EncodeMemSlice(cpu, kind, addr, size, values) + tail, d,
                      SliceLines(cpu, kind, addr, size, values, 0), tail, d)
  {
    var elements := Elements(size, values) + tail;
    var body := [MemMeta(cpu, kind, SizeCode(size))] + (Le32(addr) + (Le32(|values|) + elements));
    MemSliceBytes(cpu, kind, addr, size, values, tail);
    assert ([TAG_MEM] + body)[1..] == body;
    MemSliceAt(body, cpu, kind, SizeCode(size), addr, |values|, elements, d);
    assert values[0..] == values;
    SliceRoundTrip(cpu, kind, addr, size, values, 0, tail);
  }

  lemma MemSliceBytes(cpu: U8, kind: U8, addr: U32, size: nat, values: seq<U32>, tail: seq<U8>)
    requires kind < 0x10 && size <= 4 && 0 < |values| <= U32_MAX
    ensures EncodeMemSlice(cpu, kind, addr, size, values) + tail
         == [TAG_MEM] + ([MemMeta(cpu, kind, SizeCode(size))]
                         + (Le32(addr) + (Le32(|values|) + (Elements(size, values) + tail))))
  {
    Regroup([TAG_MEM], [MemMeta(cpu, kind, SizeCode(size))], Le32(addr), Le32(|values|), Elements(size, values), tail);
  }

  lemma Regroup(a: seq<U8>, b: seq<U8>, c: seq<U8>, d: seq<U8>, e: seq<U8>, f: seq<U8>)
    ensures a + b + c + d + e + f == a + (b + (c + (d + (e + f))))
  {
  }

  // ---- whole logs ----

  ghost predicate StepsPast(bytes: seq<U8>, d: Prevs, events: seq<Event>, tail: seq<U8>, d': Prevs) {
    bytes != [] && StepBody(bytes[0], bytes[1..], d) == More(events, tail, d')
  }

  lemma InstRoundTrip(r: Record, pad: seq<U8>, w: Prev, d: Prevs, tail: seq<U8>)
    requires r.cpu < 2 && |pad| == 3 && (w.valid ==> d[r.cpu] == Some(w.record) && w.record.cpu == r.cpu)
    ensures StepsPast(EncodeInst(w, r, pad) + tail, d, [Executed(r)], tail, d[r.cpu := Some(r)])
  {
    if NeedsKeyframe(w) {
      assert (EncodeKeyframe(r, pad) + tail)[1..] == Words(AllWords(r)) + [r.cpu] + pad + tail;
      KeyframeRoundTrip(r, pad, tail, d);
    } else {
      DeltaRoundTrip(w.record, r, tail, d);
    }
  }

  function AfterEvent(item: Item, d: Prevs): Prevs {
    if item.Inst? && item.record.cpu < 2 then d[item.record.cpu := Some(item.record)] else d
  }

  /** One log call: the decoder prints its meaning, stops right after its bytes, and stays in step. */
  lemma ItemRoundTrip(item: Item, w: Prevs2, d: Prevs, tail: seq<U8>)
    requires item.Ok() && Mirrors(d, w) && EncodeItem(w, item) != []
    ensures StepsPast(EncodeItem(w, item) + tail, d, Meaning(item), tail, AfterEvent(item, d))
    ensures Mirrors(AfterEvent(item, d), AfterItem(w, item))
  {
    match item
    case Inst(r, pad) => InstRoundTrip(r, pad, w[r.cpu], d, tail);
    case Text(text, newline) => TextRoundTrip(text, newline, tail, d);
    case Mem(cpu, kind, addr, value) => MemRoundTrip(cpu, kind, addr, value, tail, d);
    case MemSlice(cpu, kind, addr, size, values) => MemSliceRoundTrip(cpu, kind, addr, size, values, tail, d);
  }

  /** For every interleaving of records of both processors, text and memory accesses, decoding the
      written bytes prints exactly what was logged. */
  lemma {:induction false} LogRoundTrip(items: seq<Item>, w: Prevs2, d: Prevs)
    requires AllOk(items) && Mirrors(d, w)
    ensures Decode(Encode(w, items), d) == Meanings(items)
    decreases |items|
  {
    if items != [] {
      var item, rest := items[0], items[1..];
      var tail := Encode(AfterItem(w, item), rest);
      if EncodeItem(w, item) == [] {
        assert [] + tail == tail && Meaning(item) == [];
        LogRoundTrip(rest, AfterItem(w, item), d);
      } else {
        ItemRoundTrip(item, w, d, tail);
        LogRoundTrip(rest, AfterItem(w, item), AfterEvent(item, d));
      }
    }
  }

  // ---- truncated logs ----

  predicate Continues(r: Reader, longer: Reader, ext: seq<U8>) {
    !r.truncated ==> longer == Reader(r.rest + ext, false)
  }

  lemma NextWordPrefix(r: Reader, longer: Reader, ext: seq<U8>)
    requires Continues(r, longer, ext) && (r.truncated ==> r.rest == [])
    ensures var (w, r1) := NextWord(r); var (w', longer1) := NextWord(longer);
      Continues(r1, longer1, ext) && (!r1.truncated ==> w == w') && (r1.truncated ==> r1.rest == [])
  {
    if |r.rest| >= 4 {
      assert (r.rest + ext)[..4] == r.rest[..4] && (r.rest + ext)[4..] == r.rest[4..] + ext;
    }
  }

  lemma WordUnlessPrefix(absent: bool, otherwise: U32, r: Reader, longer: Reader, ext: seq<U8>)
    requires Continues(r, longer, ext) && (r.truncated ==> r.rest == [])
    ensures var (w, r1) := WordUnless(absent, otherwise, r); var (w', longer1) := WordUnless(absent, otherwise, longer);
      Continues(r1, longer1, ext) && (!r1.truncated ==> w == w') && (r1.truncated ==> r1.rest == [])
      && (r.truncated ==> r1.truncated)
  {
    if !absent {
      NextWordPrefix(r, longer, ext);
    }
  }

  lemma {:induction false} ReadRegsPrefix(r: Reader, longer: Reader, ext: seq<U8>, mask: U16, regs: seq<U32>,
                                          regs': seq<U32>, i: nat)
    requires |regs| == |regs'| == REG_COUNT && i <= REG_COUNT && (!r.truncated ==> regs == regs')
    requires Continues(r, longer, ext) && (r.truncated ==> r.rest == [])
    ensures var (x, r1) := ReadRegs(r, mask, regs, i); var (x', longer1) := ReadRegs(longer, mask, regs', i);
      Continues(r1, longer1, ext) && (!r1.truncated ==> x == x') && (r.truncated ==> r1.truncated)
    decreases REG_COUNT - i
  {
    if i < REG_COUNT {
      if Bit(mask, i) {
        NextWordPrefix(r, longer, ext);
        var (w, r1) := NextWord(r);
        var (w', longer1) := NextWord(longer);
        ReadRegsPrefix(r1, longer1, ext, mask, regs[i := w], regs'[i := w'], i + 1);
      } else {
        ReadRegsPrefix(r, longer, ext, mask, regs, regs', i + 1);
      }
    }
  }

  lemma ReadDeltaPrefix(p: Record, flags: U8, mask: U16, r: Reader, ext: seq<U8>)
    requires !r.truncated
    ensures var (x, r1) := ReadDelta(p, flags, mask, r);
      var (x', longer1) := ReadDelta(p, flags, mask, Reader(r.rest + ext, false));
      Continues(r1, longer1, ext) && (!r1.truncated ==> x == x')
  {
    var longer := Reader(r.rest + ext, false);
    WordUnlessPrefix(Bit(flags, PC_SEQ_BIT), 0, r, longer, ext);
    var (pc, r1) := WordUnless(Bit(flags, PC_SEQ_BIT), 0, r);
    var (pc', l1) := WordUnless(Bit(flags, PC_SEQ_BIT), 0, longer);
    WordUnlessPrefix(Bit(flags, CPSR_SAME_BIT), p.cpsr, r1, l1, ext);
    var (cpsr, r2) := WordUnless(Bit(flags, CPSR_SAME_BIT), p.cpsr, r1);
    var (cpsr', l2) := WordUnless(Bit(flags, CPSR_SAME_BIT), p.cpsr, l1);
    WordUnlessPrefix(Bit(flags, SPSR_SAME_BIT), p.spsr, r2, l2, ext);
    var (spsr, r3) := WordUnless(Bit(flags, SPSR_SAME_BIT), p.spsr, r2);
    var (spsr', l3) := WordUnless(Bit(flags, SPSR_SAME_BIT), p.spsr, l2);
    WordUnlessPrefix(Bit(flags, OPCODE_SAME_BIT), p.opcode, r3, l3, ext);
    var (opcode, r4) := WordUnless(Bit(flags, OPCODE_SAME_BIT), p.opcode, r3);
    var (opcode', l4) := WordUnless(Bit(flags, OPCODE_SAME_BIT), p.opcode, l3);
    ReadRegsPrefix(r4, l4, ext, mask, p.regs, p.regs, 0);
  }

  lemma {:induction false} SlicePrefix(cpu: U8, kind: U8, addr: U32, width: nat, count: nat, i: nat, bytes: seq<U8>,
                                       ext: seq<U8>)
    requires i <= count && width <= 4
    ensures var (e, rest) := SliceEvents(cpu, kind, addr, width, count, i, bytes);
      var (e', rest') := SliceEvents(cpu, kind, addr, width, count, i, bytes + ext);
      (e' == e && rest' == rest + ext) || (e <= e' && rest == [])
    decreases count - i
  {
    if i < count && |bytes| >= width {
      assert (bytes + ext)[..width] == bytes[..width] && (bytes + ext)[width..] == bytes[width..] + ext;
      SlicePrefix(cpu, kind, addr, width, count, i + 1, bytes[width..], ext);
    }
  }

  /** Decoding the same record with more bytes behind it: the same, or a cut-off slice goes on. */
  ghost predicate Extends(s: Step, longer: Step, ext: seq<U8>) {
    s.More? ==>
      && longer.More? && s.prev == longer.prev
      && ((longer.events == s.events && longer.rest == s.rest + ext) || (s.events <= longer.events && s.rest == []))
  }

  lemma StepMemPrefix(bytes: seq<U8>, ext: seq<U8>, d: Prevs)
    ensures Extends(StepMem(bytes, d), StepMem(bytes + ext, d), ext)
  {
    var longer := bytes + ext;
    if |bytes| >= 5 {
      var kind, cpu, width := bytes[0] % 0x10, bytes[0] / 0x10 % 2, MemWidth(bytes[0] / 0x20 % 4);
      assert longer[1..5] == bytes[1..5] && longer[0] == bytes[0];
      if MemIsSlice(kind) {
        if |bytes| >= 9 {
          assert longer[5..9] == bytes[5..9] && longer[9..] == bytes[9..] + ext;
          SlicePrefix(cpu, kind, FromLe32(bytes[1..5]), width, FromLe32(bytes[5..9]), 0, bytes[9..], ext);
        }
      } else if |bytes| >= 5 + width {
        assert longer[5..5 + width] == bytes[5..5 + width] && longer[5 + width..] == bytes[5 + width..] + ext;
      }
    }
  }

  lemma StepTextPrefix(bytes: seq<U8>, ext: seq<U8>, d: Prevs)
    ensures Extends(StepText(bytes, d), StepText(bytes + ext, d), ext)
  {
    if |bytes| >= 4 {
      assert (bytes + ext)[..4] == bytes[..4];
      var len: int := FromLe32(bytes[..4]);
      if |bytes| >= 4 + len + 1 {
        assert (bytes + ext)[4..4 + len] == bytes[4..4 + len];
        assert (bytes + ext)[4 + len + 1..] == bytes[4 + len + 1..] + ext;
      }
    }
  }

  lemma StepDeltaPrefix(bytes: seq<U8>, ext: seq<U8>, d: Prevs)
    ensures Extends(StepDelta(bytes, d), StepDelta(bytes + ext, d), ext)
  {
    if |bytes| >= 3 {
      assert (bytes + ext)[3..] == bytes[3..] + ext;
      match d[CpuOf(bytes[0])]
      case None =>
      case Some(p) =>
        ReadDeltaPrefix(p, bytes[0], bytes[1] as int + 0x100 * bytes[2] as int, Reader(bytes[3..], false), ext);
    }
  }

  lemma StepPrefix(tag: U8, bytes: seq<U8>, ext: seq<U8>, d: Prevs)
    ensures Extends(StepBody(tag, bytes, d), StepBody(tag, bytes + ext, d), ext)
  {
    if tag == TAG_INST {
      if |bytes| >= RECORD_SIZE {
        assert (bytes + ext)[..RECORD_SIZE] == bytes[..RECORD_SIZE];
        assert (bytes + ext)[RECORD_SIZE..] == bytes[RECORD_SIZE..] + ext;
      }
    } else if tag == TAG_INST_DELTA {
      StepDeltaPrefix(bytes, ext, d);
    } else if tag == TAG_TEXT {
      StepTextPrefix(bytes, ext, d);
    } else if tag == TAG_MEM {
      StepMemPrefix(bytes, ext, d);
    }
  }

  /** On any bytes at all, what is printed for a prefix is a prefix of what is printed. */
  lemma {:induction false} DecodePrefix(bytes: seq<U8>, ext: seq<U8>, d: Prevs)
    ensures Decode(bytes, d) <= Decode(bytes + ext, d)
    decreases |bytes|
  {
    if bytes != [] {
      StepPrefix(bytes[0], bytes[1..], ext, d);
      assert (bytes + ext)[1..] == bytes[1..] + ext;
      var s := StepBody(bytes[0], bytes[1..], d);
      if s.More? {
        DecodePrefix(s.rest, ext, s.prev);
        var longer := StepBody(bytes[0], bytes[1..] + ext, d);
        if longer.events == s.events && longer.rest == s.rest + ext {
          Prefixes(s.events, Decode(s.rest, s.prev), s.events, Decode(longer.rest, longer.prev));
        } else {
          Prefixes(s.events, [], longer.events, Decode(longer.rest, longer.prev));
        }
      }
    }
  }

  lemma Prefixes<T>(a: seq<T>, b: seq<T>, c: seq<T>, d: seq<T>)
    requires (a == c && b <= d) || (a <= c && b == [])
    ensures a + b <= c + d
  {
  }

  lemma CutDecodesToPrefix(items: seq<Item>, w: Prevs2, d: Prevs, cut: nat)
    requires AllOk(items) && Mirrors(d, w) && cut <= |Encode(w, items)|
    ensures Decode(Encode(w, items)[..cut], d) <= Meanings(items)
  {
    var bytes := Encode(w, items);
    LogRoundTrip(items, w, d);
    assert bytes == bytes[..cut] + bytes[cut..];
    DecodePrefix(bytes[..cut], bytes[cut..], d);
  }

  /** A log cut off at any byte decodes to a prefix of what was logged. */
  lemma TruncatedLogDecodesToPrefix(items: seq<Item>, cut: nat)
    requires AllOk(items) && cut <= |Encode([NO_PREV, NO_PREV], items)|
    ensures Decode(Encode([NO_PREV, NO_PREV], items)[..cut], NO_PREVS) <= Meanings(items)
  {
    CutDecodesToPrefix(items, [NO_PREV, NO_PREV], NO_PREVS, cut);
  }
}
