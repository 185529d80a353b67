/**
 The bytes that the trace writer writes for each call, place by place, and which record it chooses.
 */
module TraceLayout {
  import opened Machine
  import opened TraceFormat
  import opened TraceLog
  import opened TraceRoundTrip

  /** The four bytes at a place, lowest first, as a number. */
  function Number(b: seq<U8>, at: nat): int
    requires at + 4 <= |b|
  {
    b[at] as int + 0x100 * b[at + 1] as int + 0x1_0000 * b[at + 2] as int + 0x100_0000 * b[at + 3] as int
  }

  /** From a place on, the bytes hold these words. */
  ghost predicate HoldsWords(b: seq<U8>, at: nat, ws: seq<U32>) {
    at + 4 * |ws| <= |b| && forall k :: 0 <= k < |ws| ==> Number(b, at + 4 * k) == ws[k]
  }

  lemma NumberOf(w: U32, before: seq<U8>, after: seq<U8>)
    ensures Number(before + Le32(w) + after, |before|) == w
  {
    Le32RoundTrip(w);
  }

  lemma {:induction false} WordsHold(before: seq<U8>, ws: seq<U32>, after: seq<U8>)
    ensures HoldsWords(before + Words(ws) + after, |before|, ws)
    decreases |ws|
  {
    if ws != [] {
      var b := before + Words(ws) + after;
      assert b == before + Le32(ws[0]) + (Words(ws[1..]) + after);
      NumberOf(ws[0], before, Words(ws[1..]) + after);
      assert b == (before + Le32(ws[0])) + Words(ws[1..]) + after;
      WordsHold(before + Le32(ws[0]), ws[1..], after);
      forall k | 0 <= k < |ws|
        ensures Number(b, |before| + 4 * k) == ws[k]
      {
        if k > 0 {
          assert ws[1..][k - 1] == ws[k];
          assert |before + Le32(ws[0])| + 4 * (k - 1) == |before| + 4 * k;
        }
      }
    }
  }

  // ---- instruction records ----

  /** A record is written whole for the first one of its processor, and again after 0x10_0000 deltas. */
  predicate Whole(w: Prev) { !w.valid || w.sinceKeyframe >= 0x10_0000 }

  /** A whole record: tag 0, the fifteen registers, pc, cpsr, spsr, opcode, the processor, and padding. */
  lemma KeyframeLayout(w: Prevs2, r: Record, pad: seq<U8>)
    requires Inst(r, pad).Ok() && Whole(w[r.cpu])
    ensures var b := EncodeItem(w, Inst(r, pad));
      && |b| == 81 && b[0] == 0 && HoldsWords(b, 1, r.regs)
      && Number(b, 61) == r.pc && Number(b, 65) == r.cpsr && Number(b, 69) == r.spsr && Number(b, 73) == r.opcode
      && b[77] == r.cpu && b[78..] == pad
  {
    var b := EncodeItem(w, Inst(r, pad));
    var ws := AllWords(r);
    assert b == [0] + Words(ws) + ([r.cpu] + pad);
    WordsHold([0], ws, [r.cpu] + pad);
    assert forall k :: 0 <= k < 15 ==> ws[k] == r.regs[k];
    assert ws[15] == r.pc && ws[16] == r.cpsr && ws[17] == r.spsr && ws[18] == r.opcode;
    assert Number(b, 1 + 4 * 15) == r.pc && Number(b, 1 + 4 * 16) == r.cpsr;
    assert Number(b, 1 + 4 * 17) == r.spsr && Number(b, 1 + 4 * 18) == r.opcode;
  }

  /** Whether the pc follows the last one: by two in Thumb state, which bit 5 of the new cpsr says, else by four. */
  predicate Follows(p: Record, r: Record) { r.pc == (p.pc + if r.cpsr / 0x20 % 2 == 1 then 2 else 4) % 0x1_0000_0000 }

  /** The changed ones of the first `n` registers, in order, and the number with a bit for each of them. */
  function Differing(p: seq<U32>, r: seq<U32>, n: nat): seq<U32>
    requires n <= |p| == |r|
  {
    if n == 0 then [] else Differing(p, r, n - 1) + if p[n - 1] != r[n - 1] then [r[n - 1]] else []
  }

  function DifferingBits(p: seq<U32>, r: seq<U32>, n: nat): nat
    requires n <= |p| == |r|
  {
    if n == 0 then 0 else DifferingBits(p, r, n - 1) + if p[n - 1] != r[n - 1] then PowerOfTwo(n - 1) else 0
  }

  function PowerOfTwo(n: nat): nat { if n == 0 then 1 else PowerOfTwo(n - 1) + PowerOfTwo(n - 1) }

  /** The words of a delta: those of pc, cpsr, spsr and opcode that do not follow or differ, and changed registers. */
  function DeltaWords(p: Record, r: Record): seq<U32> {
    (if Follows(p, r) then [] else [r.pc]) + (if r.cpsr == p.cpsr then [] else [r.cpsr])
    + (if r.spsr == p.spsr then [] else [r.spsr]) + (if r.opcode == p.opcode then [] else [r.opcode])
    + Differing(p.regs, r.regs, |p.regs|)
  }

  /** The flags of a delta, from bit 0: the processor, pc follows, same opcode, same spsr, same cpsr. */
  function DeltaFlags(p: Record, r: Record): int {
    r.cpu as int + (if Follows(p, r) then 2 else 0) + (if r.opcode == p.opcode then 4 else 0)
    + (if r.spsr == p.spsr then 8 else 0) + (if r.cpsr == p.cpsr then 16 else 0)
  }

  lemma {:induction false} ChangedIsDiffering(p: seq<U32>, r: seq<U32>, n: nat)
    requires n <= |p| == |r|
    ensures Differing(p, r, n) + ChangedWords(p, r, n) == ChangedWords(p, r, 0)
  {
    if n == 0 {
      assert [] + ChangedWords(p, r, 0) == ChangedWords(p, r, 0);
    } else {
      ChangedIsDiffering(p, r, n - 1);
      var here := if p[n - 1] != r[n - 1] then [r[n - 1]] else [];
      assert ChangedWords(p, r, n - 1) == here + ChangedWords(p, r, n);
      assert Differing(p, r, n - 1) + (here + ChangedWords(p, r, n))
          == (Differing(p, r, n - 1) + here) + ChangedWords(p, r, n);
    }
  }

  lemma {:induction false} PackIsBits(p: seq<U32>, r: seq<U32>, n: nat)
    requires n <= |p| == |r|
    ensures Pack(Changed(p, r)[..n]) == DifferingBits(p, r, n) && Pow2(n) == PowerOfTwo(n)
  {
    if n > 0 {
      var c := Changed(p, r);
      PackIsBits(p, r, n - 1);
      assert c[..n] == c[..n - 1] + [c[n - 1]];
      PackAppend(c[..n - 1], c[n - 1]);
    }
  }

  lemma FlagsAre(p: Record, r: Record)
    requires r.cpu < 2
    ensures Flags(p, r) == DeltaFlags(p, r)
  {
  }

  lemma MaskIs(p: Record, r: Record, n: nat)
    requires n == |p.regs| == 15
    ensures Mask(p, r) == DifferingBits(p.regs, r.regs, n)
  {
    PackIsBits(p.regs, r.regs, n);
    assert Changed(p.regs, r.regs)[..n] == Changed(p.regs, r.regs);
  }

  lemma RegistersAre(p: seq<U32>, r: seq<U32>, n: nat)
    requires n == |p| == |r|
    ensures ChangedWords(p, r, 0) == Differing(p, r, n)
  {
    ChangedIsDiffering(p, r, n);
    assert Differing(p, r, n) + [] == Differing(p, r, n);
  }

  lemma DeltaParts(p: Record, r: Record)
    requires r.cpu < 2
    ensures Flags(p, r) == DeltaFlags(p, r) && Mask(p, r) == DifferingBits(p.regs, r.regs, |p.regs|)
    ensures HeadWords(p, r) + ChangedWords(p.regs, r.regs, 0) == DeltaWords(p, r)
  {
    FlagsAre(p, r);
    MaskIs(p, r, |p.regs|);
    RegistersAre(p.regs, r.regs, |p.regs|);
  }

  /** Any other record is a delta against the last one of its processor: tag 2, flags, the mask of changed registers in
      two bytes, and the words. */
  lemma DeltaLayout(w: Prevs2, r: Record, pad: seq<U8>)
    requires Inst(r, pad).Ok() && !Whole(w[r.cpu])
    ensures var b, p := EncodeItem(w, Inst(r, pad)), w[r.cpu].record;
      && |b| == 4 + 4 * |DeltaWords(p, r)| && b[0] == 2 && b[1] == DeltaFlags(p, r)
      && b[2] as int + 0x100 * b[3] as int == DifferingBits(p.regs, r.regs, |p.regs|)
      && HoldsWords(b, 4, DeltaWords(p, r))
  {
    var b, p := EncodeItem(w, Inst(r, pad)), w[r.cpu].record;
    DeltaParts(p, r);
    var head := [TAG_INST_DELTA, Flags(p, r), Mask(p, r) % 0x100, Mask(p, r) / 0x100];
    assert b == head + Words(DeltaWords(p, r)) + [];
    WordsHold(head, DeltaWords(p, r), []);
  }

  /** Afterwards this record is the last one of its processor, the deltas since a whole one are counted, and the other
      processor's state is as it was. */
  lemma WriterState(w: Prevs2, r: Record, pad: seq<U8>)
    requires Inst(r, pad).Ok()
    ensures var w' := AfterItem(w, Inst(r, pad));
      && w'[r.cpu] == Prev(r, true, if Whole(w[r.cpu]) then 0 else w[r.cpu].sinceKeyframe + 1)
      && w'[1 - r.cpu] == w[1 - r.cpu]
  {
  }

  // ---- text and memory records ----

  /** A text: tag 1, its length, its bytes, and whether a line ends. */
  lemma TextLayout(w: Prevs2, text: seq<U8>, newline: bool)
    requires Item.Text(text, newline).Ok()
    ensures var b := EncodeItem(w, Item.Text(text, newline));
      && |b| == 6 + |text| && b[0] == 1 && Number(b, 1) == |text| && b[5..5 + |text|] == text
      && b[5 + |text|] == (if newline then 1 else 0) && AfterItem(w, Item.Text(text, newline)) == w
  {
    Le32RoundTrip(|text|);
  }

  /** How many bytes a value takes: none for zero, and otherwise the fewest of one, two and four. */
  function BytesOf(value: U32): nat {
    if value == 0 then 0 else if value < 0x100 then 1 else if value < 0x1_0000 then 2 else 4
  }

  /** A memory record's second byte: the kind, the processor, and the code of the width, 3 standing for four bytes. */
  function Meta(cpu: U8, kind: U8, size: nat): int {
    kind as int + 0x10 * cpu as int + 0x20 * if size == 4 then 3 else size
  }

  /** A memory access: tag 3, the second byte, the address, and the value's low bytes. */
  lemma MemLayout(w: Prevs2, cpu: U8, kind: U8, addr: U32, value: U32)
    requires Item.Mem(cpu, kind, addr, value).Ok()
    ensures var b, n := EncodeItem(w, Item.Mem(cpu, kind, addr, value)), BytesOf(value);
      && |b| == 6 + n && b[0] == 3 && b[1] == Meta(cpu, kind, n) && Number(b, 2) == addr
      && (n == 1 ==> b[6] == value) && (n == 2 ==> b[6] as int + 0x100 * b[7] as int == value)
      && (n == 4 ==> Number(b, 6) == value) && AfterItem(w, Item.Mem(cpu, kind, addr, value)) == w
  {
    Le32RoundTrip(addr);
    Le32RoundTrip(value);
  }

  /** An element of a slice at its place. */
  ghost predicate ElementAt(b: seq<U8>, at: nat, size: nat, value: U32) {
    && at + size <= |b|
    && (size == 1 ==> b[at] == value) && (size == 2 ==> b[at] as int + 0x100 * b[at + 1] as int == value)
    && (size == 4 ==> Number(b, at) == value)
  }

  lemma ElementIsAt(size: nat, value: U32, before: seq<U8>, after: seq<U8>)
    requires (size == 1 || size == 2 || size == 4) && value < Limit(size)
    ensures ElementAt(before + Le32(value)[..size] + after, |before|, size, value)
  {
    Le32RoundTrip(value);
    if size == 1 {
      assert Le32(value)[0] == value;
    }
  }

  lemma ElementsSplit(size: nat, values: seq<U32>, before: seq<U8>, first: seq<U8>, rest: seq<U8>)
    requires size <= 4 && values != [] && first == Le32(values[0])[..size] && rest == Elements(size, values[1..])
    ensures before + Elements(size, values) == before + first + rest == (before + first) + rest
  {
  }

  lemma NextPlace(size: nat, k: nat, at: nat, place: nat)
    requires k > 0 && place == at + size * k
    ensures place == at + size + size * (k - 1)
  {
  }

  lemma {:induction false} ElementsAt(size: nat, values: seq<U32>, before: seq<U8>, k: nat, place: nat)
    requires (size == 1 || size == 2 || size == 4) && k < |values| && place == |before| + size * k
    requires forall i :: 0 <= i < |values| ==> values[i] < Limit(size)
    ensures ElementAt(before + Elements(size, values), place, size, values[k])
    decreases k
  {
    var first, rest := Le32(values[0])[..size], Elements(size, values[1..]);
    ElementsSplit(size, values, before, first, rest);
    if k == 0 {
      ElementIsAt(size, values[0], before, rest);
    } else {
      NextPlace(size, k, |before|, place);
      ElementsAt(size, values[1..], before + first, k - 1, place);
    }
  }

  lemma {:induction false} ElementsLong(size: nat, values: seq<U32>)
    requires size <= 4
    ensures |Elements(size, values)| == size * |values|
    decreases |values|
  {
    if values != [] {
      ElementsLong(size, values[1..]);
      assert size * |values| == size + size * |values[1..]|;
    }
  }

  /** A slice: tag 3, the second byte, the address, the count, and the elements; nothing at all if there is none. */
  lemma SliceLayout(w: Prevs2, cpu: U8, kind: U8, addr: U32, size: nat, values: seq<U32>)
    requires Item.MemSlice(cpu, kind, addr, size, values).Ok()
    ensures var b := EncodeItem(w, Item.MemSlice(cpu, kind, addr, size, values));
      if values == [] then b == [] else
        && |b| == 10 + size * |values| && b[0] == 3 && b[1] == Meta(cpu, kind, size)
        && Number(b, 2) == addr && Number(b, 6) == |values|
        && (forall k :: 0 <= k < |values| ==> ElementAt(b, 10 + size * k, size, values[k]))
  {
    if values != [] {
      var meta: U8 := MemMeta(cpu, kind, SizeCode(size));
      var head := [TAG_MEM, meta] + Le32(addr) + Le32(|values|);
      var b := EncodeItem(w, Item.MemSlice(cpu, kind, addr, size, values));
      MetaIs(cpu, kind, size);
      ElementsLong(size, values);
      assert b == head + Elements(size, values);
      SliceHead(b, meta, addr, |values|, Elements(size, values));
      SliceElements(b, head, size, values);
    }
  }

  lemma MetaIs(cpu: U8, kind: U8, size: nat)
    requires cpu < 2 && kind < 0x10 && (size == 1 || size == 2 || size == 4)
    ensures MemMeta(cpu, kind, SizeCode(size)) == Meta(cpu, kind, size)
  {
  }

  lemma SliceHead(b: seq<U8>, meta: U8, addr: U32, count: U32, rest: seq<U8>)
    requires b == [TAG_MEM, meta] + Le32(addr) + Le32(count) + rest
    ensures |b| == 10 + |rest| && b[0] == 3 && b[1] == meta && Number(b, 2) == addr && Number(b, 6) == count
  {
    NumberOf(addr, [TAG_MEM, meta], Le32(count) + rest);
    assert b == [TAG_MEM, meta] + Le32(addr) + (Le32(count) + rest);
    NumberOf(count, [TAG_MEM, meta] + Le32(addr), rest);
  }

  lemma SliceElements(b: seq<U8>, head: seq<U8>, size: nat, values: seq<U32>)
    requires |head| == 10 && (size == 1 || size == 2 || size == 4) && b == head + Elements(size, values)
    requires forall i :: 0 <= i < |values| ==> values[i] < Limit(size)
    ensures forall k :: 0 <= k < |values| ==> ElementAt(b, 10 + size * k, size, values[k])
  {
    forall k | 0 <= k < |values|
      ensures ElementAt(b, 10 + size * k, size, values[k])
    {
      ElementsAt(size, values, head, k, 10 + size * k);
    }
  }

  /** Where the element `offset` bytes into a slice is accessed. */
  function AccessAt(kind: U8, addr: U32, offset: nat): U32 {
    if kind == 7 || kind == 9 then (addr + offset) % 0x1_0000_0000 else addr
  }

  lemma AccessAddress(kind: U8, addr: U32, step: nat, offset: nat)
    requires step == if kind == 7 || kind == 9 then offset else 0
    ensures WrappingAdd(addr, step % 0x1_0000_0000) == AccessAt(kind, addr, offset)
  {
    SameAddr(addr, step);
    SmallRemainder(addr, 0x1_0000_0000);
  }

  lemma StepOf(kind: U8, size: nat, i: nat, offset: nat)
    requires offset == i * size
    ensures i * MemStride(kind, size) == if kind == 7 || kind == 9 then offset else 0
  {
  }

  lemma FirstAccess(cpu: U8, kind: U8, addr: U32, size: nat, values: seq<U32>, i: nat, offset: nat)
    requires i < |values| && offset == i * size
    ensures SliceLines(cpu, kind, addr, size, values, i)
         == [Access(cpu, kind, AccessAt(kind, addr, offset), values[i])]
            + SliceLines(cpu, kind, addr, size, values, i + 1)
  {
    StepOf(kind, size, i, offset);
    AccessAddress(kind, addr, i * MemStride(kind, size), offset);
  }

  /** A slice stands for one access per element, at addresses that go up by the element size for the kinds 7 and 9, and
      stay for the others. */
  lemma {:induction false} SliceMeaning(cpu: U8, kind: U8, addr: U32, size: nat, values: seq<U32>, i: nat, k: nat,
                                        offset: nat)
    requires i + k < |values| && offset == (i + k) * size
    ensures |SliceLines(cpu, kind, addr, size, values, i)| == |values| - i
    ensures SliceLines(cpu, kind, addr, size, values, i)[k]
         == Access(cpu, kind, AccessAt(kind, addr, offset), values[i + k])
    decreases k
  {
    SliceLong(cpu, kind, addr, size, values, i);
    if k > 0 {
      FirstAccess(cpu, kind, addr, size, values, i, i * size);
      SliceMeaning(cpu, kind, addr, size, values, i + 1, k - 1, offset);
    } else {
      FirstAccess(cpu, kind, addr, size, values, i, offset);
    }
  }

  lemma {:induction false} SliceLong(cpu: U8, kind: U8, addr: U32, size: nat, values: seq<U32>, i: nat)
    requires i <= |values|
    ensures |SliceLines(cpu, kind, addr, size, values, i)| == |values| - i
    decreases |values| - i
  {
    if i < |values| {
      SliceLong(cpu, kind, addr, size, values, i + 1);
    }
  }
}
