/**
 The trace writer: per-processor state, delta records against it, and the records for text and memory
 accesses. `Encode` says which bytes a sequence of log calls writes.
 */
module TraceLog {
  import opened Machine
  import opened TraceFormat

  const KEYFRAME_INTERVAL := 0x10_0000

  /** Writer state for one processor. Its record is only meaningful once `valid` is set. */
  datatype Prev = Prev(record: Record, valid: bool, sinceKeyframe: nat)

  const NO_PREV := Prev(RawRecord(seq(REG_COUNT, _ => 0), 0, 0, 0, 0, 0), false, 0)

  type Prevs2 = p: seq<Prev> | |p| == 2 witness [NO_PREV, NO_PREV]

  /** One call of the logger. `pad` is whatever the padding bytes of the record struct held. */
  datatype Item =
    | Inst(record: Record, pad: seq<U8>)
    | Text(text: seq<U8>, newline: bool)
    | Mem(cpu: U8, kind: U8, addr: U32, value: U32)
    | MemSlice(cpu: U8, kind: U8, addr: U32, size: nat, values: seq<U32>)
  {
    /** What the call sites guarantee: there are two processors, kinds suit the call, elements fit their
        size, and lengths fit the 32-bit fields that hold them. */
    ghost predicate Ok() {
      match this
      case Inst(record, pad) => record.cpu < 2 && |pad| == 3
      case Text(text, _) => |text| <= U32_MAX
      case Mem(cpu, kind, _, _) => cpu < 2 && kind < 7
      case MemSlice(cpu, kind, _, size, values) =>
        && cpu < 2 && MemIsSlice(kind) && (size == 1 || size == 2 || size == 4) && |values| <= U32_MAX
        && forall k :: 0 <= k < |values| ==> values[k] < Limit(size)
    }
  }

  function Limit(size: nat): nat { if size == 1 then 0x100 else if size == 2 then 0x1_0000 else 0x1_0000_0000 }

  // ---- instruction records ----

  function AllWords(r: Record): seq<U32> { r.regs + [r.pc, r.cpsr, r.spsr, r.opcode] }

  function Flag(b: bool, weight: U8): int { if b then weight else 0 }

  function Flags(p: Record, r: Record): U8 {
    Flag(r.cpu == 1, 1) + Flag(r.pc == NextPc(p.pc, r.cpsr), 2) + Flag(r.opcode == p.opcode, 4)
    + Flag(r.spsr == p.spsr, 8) + Flag(r.cpsr == p.cpsr, 16)
  }

  function Pow2(n: nat): nat { if n == 0 then 1 else 2 * Pow2(n - 1) }

  /** The mask with bit i set when `changed[i]`. */
  function Pack(changed: seq<bool>): (m: nat)
    ensures m < Pow2(|changed|)
  {
    if changed == [] then 0 else (if changed[0] then 1 else 0) + 2 * Pack(changed[1..])
  }

  function Changed(old_: seq<U32>, new_: seq<U32>): (c: seq<bool>)
    requires |old_| == |new_|
    ensures |c| == |old_|
  {
    seq(|old_|, i requires 0 <= i < |old_| => new_[i] != old_[i])
  }

  function ChangedWords(old_: seq<U32>, new_: seq<U32>, i: nat): seq<U32>
    requires |old_| == |new_| && i <= |old_|
    decreases |old_| - i
  {
    if i == |old_| then []
    else (if new_[i] != old_[i] then [new_[i]] else []) + ChangedWords(old_, new_, i + 1)
  }

  function Unless(same: bool, w: U32): seq<U32> { if same then [] else [w] }

  function HeadWords(p: Record, r: Record): seq<U32> {
    Unless(r.pc == NextPc(p.pc, r.cpsr), r.pc) + Unless(r.cpsr == p.cpsr, r.cpsr)
    + Unless(r.spsr == p.spsr, r.spsr) + Unless(r.opcode == p.opcode, r.opcode)
  }

  function Mask(p: Record, r: Record): (m: U16)
    ensures m == Pack(Changed(p.regs, r.regs)) && m < 0x8000
  {
    assert Pow2(REG_COUNT) == 0x8000;
    Pack(Changed(p.regs, r.regs))
  }

  predicate NeedsKeyframe(p: Prev) { !p.valid || p.sinceKeyframe >= KEYFRAME_INTERVAL }

  function EncodeKeyframe(r: Record, pad: seq<U8>): seq<U8> { [TAG_INST] + Words(AllWords(r)) + [r.cpu] + pad }

  function EncodeDelta(p: Record, r: Record): seq<U8> {
    [TAG_INST_DELTA, Flags(p, r), Mask(p, r) % 0x100, Mask(p, r) / 0x100]
    + Words(HeadWords(p, r) + ChangedWords(p.regs, r.regs, 0))
  }

  function EncodeInst(p: Prev, r: Record, pad: seq<U8>): seq<U8> {
    if NeedsKeyframe(p) then EncodeKeyframe(r, pad) else EncodeDelta(p.record, r)
  }

  function AfterInst(p: Prev, r: Record): Prev { Prev(r, true, if NeedsKeyframe(p) then 0 else p.sinceKeyframe + 1) }

  // ---- other records ----

  function WidthCode(value: U32): (c: nat)
    ensures c < 4 && value < Pow256(MemWidth(c))
  {
    if value == 0 then 0 else if value <= 0xFF then 1 else if value <= 0xFFFF then 2 else 3
  }

  function MemMeta(cpu: U8, kind: U8, code: nat): U8
    requires kind < 0x10 && code < 4
  {
    kind + (if cpu % 2 == 1 then 0x10 else 0) + 0x20 * code
  }

  function Elements(size: nat, values: seq<U32>): seq<U8>
    requires size <= 4
  {
    if values == [] then [] else Le32(values[0])[..size] + Elements(size, values[1..])
  }

  function EncodeText(text: seq<U8>, newline: bool): seq<U8>
    requires |text| <= U32_MAX
  {
    [TAG_TEXT] + Le32(|text|) + text + [if newline then 1 else 0]
  }

  function EncodeMem(cpu: U8, kind: U8, addr: U32, value: U32): seq<U8>
    requires kind < 0x10
  {
    [TAG_MEM, MemMeta(cpu, kind, WidthCode(value))] + Le32(addr) + Le32(value)[..MemWidth(WidthCode(value))]
  }

  function SizeCode(size: nat): nat { if size == 1 then 1 else if size == 2 then 2 else 3 }

  function EncodeMemSlice(cpu: U8, kind: U8, addr: U32, size: nat, values: seq<U32>): seq<U8>
    requires kind < 0x10 && size <= 4 && |values| <= U32_MAX
  {
    if values == [] then [] else
    [TAG_MEM, MemMeta(cpu, kind, SizeCode(size))] + Le32(addr) + Le32(|values|) + Elements(size, values)
  }

  function EncodeItem(prevs: Prevs2, item: Item): seq<U8>
    requires item.Ok()
  {
    match item
    case Inst(record, pad) => EncodeInst(prevs[record.cpu], record, pad)
    case Text(text, newline) => EncodeText(text, newline)
    case Mem(cpu, kind, addr, value) => EncodeMem(cpu, kind, addr, value)
    case MemSlice(cpu, kind, addr, size, values) => EncodeMemSlice(cpu, kind, addr, size, values)
  }

  function AfterItem(prevs: Prevs2, item: Item): Prevs2
    requires item.Ok()
  {
    match item
    case Inst(record, _) => prevs[record.cpu := AfterInst(prevs[record.cpu], record)]
    case _ => prevs
  }

  ghost predicate AllOk(items: seq<Item>) { forall i :: 0 <= i < |items| ==> items[i].Ok() }

  function Encode(prevs: Prevs2, items: seq<Item>): seq<U8>
    requires AllOk(items)
    decreases |items|
  {
    if items == [] then [] else EncodeItem(prevs, items[0]) + Encode(AfterItem(prevs, items[0]), items[1..])
  }

  // ---- the writer ----

  // A changed register appends to the words and sets its bit, whichever registers follow.
  lemma {:induction false} PackAppend(c: seq<bool>, b: bool)
    ensures Pack(c + [b]) == Pack(c) + if b then Pow2(|c|) else 0
  {
    if c == [] {
      assert [b][1..] == [];
    } else {
      assert (c + [b])[1..] == c[1..] + [b];
      PackAppend(c[1..], b);
    }
  }

  lemma {:induction false} WordsAppend(a: seq<U32>, b: seq<U32>)
    ensures Words(a + b) == Words(a) + Words(b)
  {
    if a == [] {
      assert a + b == b;
    } else {
      assert (a + b)[1..] == a[1..] + b;
      WordsAppend(a[1..], b);
    }
  }

  lemma {:induction false} ElementsAppend(size: nat, a: seq<U32>, b: seq<U32>)
    requires size <= 4
    ensures Elements(size, a + b) == Elements(size, a) + Elements(size, b)
  {
    if a == [] {
      assert a + b == b;
    } else {
      assert (a + b)[1..] == a[1..] + b;
      ElementsAppend(size, a[1..], b);
    }
  }

  class InstLog {
    var written: seq<U8>
    const prev: array<Prev>

    ghost predicate Valid() { prev.Length == 2 }

    constructor ()
      ensures Valid() && fresh(prev) && written == [] && prev[..] == [NO_PREV, NO_PREV]
    {
      written := [];
      prev := new Prev[2](_ => NO_PREV);
    }

    method WriteRecord(r: Record, pad: seq<U8>)
      requires Valid() && r.cpu < 2
      modifies this`written, prev
      ensures written == old(written) + EncodeInst(old(prev[r.cpu]), r, pad)
      ensures prev[..] == old(prev[..])[r.cpu := AfterInst(old(prev[r.cpu]), r)]
    {
      var p := prev[r.cpu];
      var since := 0;
      if !p.valid || p.sinceKeyframe >= KEYFRAME_INTERVAL {
        written := written + [TAG_INST];
        written := written + (Words(AllWords(r)) + [r.cpu] + pad);
        assert [TAG_INST] + (Words(AllWords(r)) + [r.cpu] + pad) == EncodeKeyframe(r, pad);
      } else {
        var flags, head := HeadOf(p.record, r);
        var mask, changed := CollectChanged(p.record, r);
        // What fits the writer's payload buffer.
        assert |head + changed| <= 19;
        written := written + [TAG_INST_DELTA, flags, mask % 0x100, mask / 0x100];
        written := written + Words(head + changed);
        since := p.sinceKeyframe + 1;
      }
      prev[r.cpu] := Prev(r, true, since);
    }

    /** The words of a delta record before its registers, and the flags that say which are there. */
    static method HeadOf(p: Record, r: Record) returns (flags: U8, words: seq<U32>)
      ensures flags == Flags(p, r) && words == HeadWords(p, r) && |words| <= 4
    {
      flags, words := if r.cpu == 1 then 1 else 0, [];
      if r.pc == WrappingAdd(p.pc, if Thumb(r.cpsr) then 2 else 4) {
        flags := flags + 2;
      } else {
        words := words + [r.pc];
      }
      assert words == Unless(r.pc == NextPc(p.pc, r.cpsr), r.pc);
      if r.cpsr == p.cpsr {
        flags := flags + 16;
      } else {
        words := words + [r.cpsr];
      }
      if r.spsr == p.spsr {
        flags := flags + 8;
      } else {
        words := words + [r.spsr];
      }
      if r.opcode == p.opcode {
        flags := flags + 4;
      } else {
        words := words + [r.opcode];
      }
    }

    /** The registers that changed, in ascending order. */
    static method CollectChanged(p: Record, r: Record) returns (mask: U16, words: seq<U32>)
      ensures mask == Mask(p, r) && words == ChangedWords(p.regs, r.regs, 0) && |words| <= REG_COUNT
    {
      words := [];
      var bits, weight := 0, 1;
      ghost var changed := Changed(p.regs, r.regs);
      for i := 0 to REG_COUNT
        invariant |words| <= i && weight == Pow2(i) && bits == Pack(changed[..i])
        invariant words + ChangedWords(p.regs, r.regs, i) == ChangedWords(p.regs, r.regs, 0)
      {
        PackAppend(changed[..i], changed[i]);
        assert changed[..i + 1] == changed[..i] + [changed[i]];
        ghost var rest := ChangedWords(p.regs, r.regs, i + 1);
        if r.regs[i] != p.regs[i] {
          bits := bits + weight;
          assert words + ([r.regs[i]] + rest) == (words + [r.regs[i]]) + rest;
          words := words + [r.regs[i]];
        } else {
          assert [] + rest == rest;
        }
        weight := 2 * weight;
      }
      assert changed[..REG_COUNT] == changed;
      assert words + [] == words;
      assert bits == Mask(p, r);
      mask := bits;
    }

    method WriteText(text: seq<U8>, newline: bool)
      requires |text| <= U32_MAX
      modifies this`written
      ensures written == old(written) + EncodeText(text, newline)
    {
      written := written + [TAG_TEXT];
      written := written + Le32(|text|);
      written := written + text;
      written := written + [if newline then 1 else 0];
    }

    method LogMem(cpu: U8, kind: U8, addr: U32, value: U32)
      requires cpu < 2 && kind < 7
      modifies this`written
      ensures written == old(written) + EncodeMem(cpu, kind, addr, value)
    {
      var code := WidthCode(value);
      var head := [TAG_MEM, MemMeta(cpu, kind, code)] + Le32(addr);
      written := written + (head + Le32(value)[..MemWidth(code)]);
    }

    method LogMemSlice(cpu: U8, kind: U8, addr: U32, size: nat, values: seq<U32>)
      requires Item.MemSlice(cpu, kind, addr, size, values).Ok()
      modifies this`written
      ensures written == old(written) + EncodeMemSlice(cpu, kind, addr, size, values)
    {
      if values == [] {
        return;
      }
      var head := [TAG_MEM, MemMeta(cpu, kind, SizeCode(size))] + Le32(addr) + Le32(|values|);
      written := written + head;
      written := written + Elements(size, values);
    }

    method Log(item: Item)
      requires Valid() && item.Ok()
      modifies this`written, prev
      ensures written == old(written) + EncodeItem(old(prev[..]), item)
      ensures prev[..] == AfterItem(old(prev[..]), item)
    {
      match item {
        case Inst(r, pad) => WriteRecord(r, pad);
        case Text(text, newline) => WriteText(text, newline);
        case Mem(cpu, kind, addr, value) => LogMem(cpu, kind, addr, value);
        case MemSlice(cpu, kind, addr, size, values) => LogMemSlice(cpu, kind, addr, size, values);
      }
    }

    /** A sequence of log calls. */
    method LogAll(items: seq<Item>)
      requires Valid() && AllOk(items)
      modifies this`written, prev
      ensures written == old(written) + Encode(old(prev[..]), items)
    {
      ghost var goal := written + Encode(prev[..], items);
      assert items[0..] == items;
      for i := 0 to |items|
        invariant prev.Length == 2 && written + Encode(prev[..], items[i..]) == goal
      {
        EncodeStep(prev[..], items, i, written);
        Log(items[i]);
      }
      assert written + [] == written;
    }
  }

  lemma EncodeStep(prevs: Prevs2, items: seq<Item>, i: nat, written: seq<U8>)
    requires AllOk(items) && i < |items|
    ensures written + Encode(prevs, items[i..])
         == written + EncodeItem(prevs, items[i]) + Encode(AfterItem(prevs, items[i]), items[i + 1..])
  {
    assert items[i..][0] == items[i] && items[i..][1..] == items[i + 1..];
  }
}
