/**
 The binary instruction trace: the layout of its records and the decoder that the emulator and the
 standalone tool share. A reader is represented by the bytes it has not consumed yet.
 */
module TraceFormat {
  import opened Machine

  const TAG_INST: U8 := 0
  const TAG_TEXT: U8 := 1
  const TAG_INST_DELTA: U8 := 2
  const TAG_MEM: U8 := 3
  const RECORD_SIZE := 80
  const REG_COUNT := 15

  datatype RawRecord = RawRecord(regs: seq<U32>, pc: U32, cpsr: U32, spsr: U32, opcode: U32, cpu: U8)
  type Record = r: RawRecord | |r.regs| == REG_COUNT
    witness RawRecord(seq(REG_COUNT, _ => 0), 0, 0, 0, 0, 0)

  /** What the decoder prints, one event per printed unit. */
  datatype Event =
    | Executed(record: Record)
    | TextOut(text: seq<U8>, newline: bool)
    | Access(cpu: U8, kind: U8, addr: U32, value: U32)

  /** The last record of each processor. */
  type Prevs = p: seq<Option<Record>> | |p| == 2 witness [None, None]

  const NO_PREVS: Prevs := [None, None]

  function Thumb(cpsr: U32): bool { cpsr / 0x20 % 2 == 1 }

  function NextPc(pc: U32, cpsr: U32): U32 { WrappingAdd(pc, if Thumb(cpsr) then 2 else 4) }

  /** `mask >> i`, and the bit it leaves lowest. */
  function Shifted(mask: nat, i: nat): nat { if i == 0 then mask else Shifted(mask, i - 1) / 2 }

  function Bit(mask: nat, i: nat): bool { Shifted(mask, i) % 2 == 1 }

  function Words(ws: seq<U32>): (bytes: seq<U8>)
    ensures |bytes| == 4 * |ws|
  {
    if ws == [] then [] else Le32(ws[0]) + Words(ws[1..])
  }

  function Word(buf: seq<U8>, i: nat): U32
    requires 4 * i + 4 <= |buf|
  {
    FromLe32(buf[4 * i..4 * i + 4])
  }

  // ---- memory records ----

  function MemIsSlice(kind: U8): bool { 7 <= kind <= 10 }

  function MemStride(kind: U8, width: nat): nat { if kind == 7 || kind == 9 then width else 0 }

  function MemWidth(code: nat): nat
    requires code < 4
  {
    if code == 3 then 4 else code
  }

  /** `u32::from_le_bytes` of at most four bytes, the rest being zero. */
  function FromLePadded(bytes: seq<U8>): U32
    requires |bytes| <= 4
  {
    FromLeBound(bytes);
    Pow256Grows(|bytes|, 4);
    assert Pow256(4) == 0x1_0000_0000;
    FromLe(bytes)
  }

  function ElementAddr(addr: U32, i: nat, stride: nat): U32 { (addr + i * stride) % 0x1_0000_0000 }

  /** The events of the elements from `i` on, up to the first that is cut off, and what is left. */
  function SliceEvents(cpu: U8, kind: U8, addr: U32, width: nat, count: nat, i: nat, bytes: seq<U8>)
    : (r: (seq<Event>, seq<U8>))
    requires i <= count && width <= 4
    ensures |r.1| <= |bytes|
    decreases count - i
  {
    if i == count then ([], bytes)
    else if |bytes| < width then ([], [])
    else
      var (events, rest) := SliceEvents(cpu, kind, addr, width, count, i + 1, bytes[width..]);
      ([Access(cpu, kind, ElementAddr(addr, i, MemStride(kind, width)), FromLePadded(bytes[..width]))] + events, rest)
  }

  // ---- one record ----

  datatype Step = Stop | More(events: seq<Event>, rest: seq<U8>, prev: Prevs)

  function DecodeRecord(buf: seq<U8>): Record
    requires |buf| == RECORD_SIZE
  {
    RawRecord(seq(REG_COUNT, i requires 0 <= i < REG_COUNT => Word(buf, i)),
              Word(buf, 15), Word(buf, 16), Word(buf, 17), Word(buf, 18), buf[76])
  }

  function StepInst(bytes: seq<U8>, prev: Prevs): Step {
    if |bytes| < RECORD_SIZE then Stop else
    var record := DecodeRecord(bytes[..RECORD_SIZE]);
    More([Executed(record)], bytes[RECORD_SIZE..], if record.cpu < 2 then prev[record.cpu := Some(record)] else prev)
  }

  datatype Reader = Reader(rest: seq<U8>, truncated: bool)

  /** A failed read leaves the reader at the end of the file. */
  function NextWord(r: Reader): (x: (U32, Reader))
    ensures |x.1.rest| <= |r.rest|
  {
    if |r.rest| < 4 then (0, Reader([], true)) else (FromLe32(r.rest[..4]), r.(rest := r.rest[4..]))
  }

  /** A word that is present unless `absent`, which stands for `otherwise`. */
  function WordUnless(absent: bool, otherwise: U32, r: Reader): (x: (U32, Reader))
    ensures |x.1.rest| <= |r.rest|
  {
    if absent then (otherwise, r) else NextWord(r)
  }

  function ReadRegs(r: Reader, mask: U16, regs: seq<U32>, i: nat): (x: (seq<U32>, Reader))
    requires |regs| == REG_COUNT && i <= REG_COUNT
    ensures |x.0| == REG_COUNT && |x.1.rest| <= |r.rest|
    decreases |regs| - i
  {
    if i == REG_COUNT then (regs, r)
    else if Bit(mask, i) then
      var (w, r1) := NextWord(r);
      ReadRegs(r1, mask, regs[i := w], i + 1)
    else ReadRegs(r, mask, regs, i + 1)
  }

  /** Bits of the flags byte, lowest first. */
  const CPU7_BIT := 0
  const PC_SEQ_BIT := 1
  const OPCODE_SAME_BIT := 2
  const SPSR_SAME_BIT := 3
  const CPSR_SAME_BIT := 4

  function CpuOf(flags: U8): nat { if Bit(flags, CPU7_BIT) then 1 else 0 }

  function ReadDelta(p: Record, flags: U8, mask: U16, r: Reader): (x: (Record, Reader))
    ensures |x.1.rest| <= |r.rest|
  {
    var (explicitPc, r1) := WordUnless(Bit(flags, PC_SEQ_BIT), 0, r);
    var (cpsr, r2) := WordUnless(Bit(flags, CPSR_SAME_BIT), p.cpsr, r1);
    var (spsr, r3) := WordUnless(Bit(flags, SPSR_SAME_BIT), p.spsr, r2);
    var (opcode, r4) := WordUnless(Bit(flags, OPCODE_SAME_BIT), p.opcode, r3);
    var (regs, r5) := ReadRegs(r4, mask, p.regs, 0);
    (RawRecord(regs, if Bit(flags, PC_SEQ_BIT) then NextPc(p.pc, cpsr) else explicitPc, cpsr, spsr, opcode, p.cpu), r5)
  }

  function StepDelta(bytes: seq<U8>, prev: Prevs): Step {
    if |bytes| < 3 then Stop else
    var flags, mask := bytes[0], bytes[1] as int + 0x100 * bytes[2] as int;
    match prev[CpuOf(flags)]
    case None => Stop
    case Some(p) =>
      var (record, r) := ReadDelta(p, flags, mask, Reader(bytes[3..], false));
      if r.truncated then Stop else More([Executed(record)], r.rest, prev[CpuOf(flags) := Some(record)])
  }

  function StepText(bytes: seq<U8>, prev: Prevs): Step {
    if |bytes| < 4 then Stop else
    var len := FromLe32(bytes[..4]);
    if |bytes| < 4 + len + 1 then Stop else
    More([TextOut(bytes[4..4 + len], bytes[4 + len] != 0)], bytes[4 + len + 1..], prev)
  }

  function StepMem(bytes: seq<U8>, prev: Prevs): Step {
    if |bytes| < 5 then Stop else
    var kind, cpu, width := bytes[0] % 0x10, bytes[0] / 0x10 % 2, MemWidth(bytes[0] / 0x20 % 4);
    var addr := FromLe32(bytes[1..5]);
    if MemIsSlice(kind) then
      if |bytes| < 9 then Stop else
      var (events, rest) := SliceEvents(cpu, kind, addr, width, FromLe32(bytes[5..9]), 0, bytes[9..]);
      More(events, rest, prev)
    else if |bytes| < 5 + width then Stop
    else More([Access(cpu, kind, addr, FromLePadded(bytes[5..5 + width]))], bytes[5 + width..], prev)
  }

  function StepBody(tag: U8, bytes: seq<U8>, prev: Prevs): (s: Step)
    ensures s.More? ==> |s.rest| <= |bytes|
  {
    if tag == TAG_INST then StepInst(bytes, prev)
    else if tag == TAG_INST_DELTA then StepDelta(bytes, prev)
    else if tag == TAG_TEXT then StepText(bytes, prev)
    else if tag == TAG_MEM then StepMem(bytes, prev)
    else Stop
  }

  /** Everything that decoding `bytes` prints. */
  function Decode(bytes: seq<U8>, prev: Prevs): seq<Event>
    decreases |bytes|
  {
    if bytes == [] then [] else
    match StepBody(bytes[0], bytes[1..], prev)
    case Stop => []
    case More(events, rest, prev') => events + Decode(rest, prev')
  }

  /** `decode_file`, collecting what it prints. */
  method DecodeFile(file: seq<U8>) returns (out: seq<Event>)
    ensures out == Decode(file, NO_PREVS)
  {
    var rest, prev := file, NO_PREVS;
    out := [];
    while rest != []
      invariant Decode(file, NO_PREVS) == out + Decode(rest, prev)
      decreases |rest|
    {
      match StepBody(rest[0], rest[1..], prev) {
        case Stop =>
          return;
        case More(events, left, prev') =>
          out := out + events;
          rest, prev := left, prev';
      }
    }
  }
}
