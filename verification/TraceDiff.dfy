/**
 The second decoder of the trace format: the record reader of the trace differ, which reads instruction
 records only. It and the emulator's decoder reconstruct the same ones.
 */
module TraceDiff {
  import opened Machine
  import opened TraceFormat
  import opened TraceLog
  import opened TraceRoundTrip

  /** A call of `read_inst`: no more records, an exception from unpacking too few bytes, or a record,
      the bytes left in the file, and the caller's state. */
  datatype Read = NoRecord | Raised | Got(record: Record, rest: seq<U8>, prev: Prevs)

  /** `f.read(n)`: what there is of `n` bytes, and the rest. */
  function Skip(bytes: seq<U8>, n: nat): (rest: seq<U8>)
    ensures |rest| <= |bytes|
  {
    if n <= |bytes| then bytes[n..] else []
  }

  /** How many bits of the mask are set, any of its sixteen. */
  function OnesOf(mask: nat): nat { if mask == 0 then 0 else mask % 2 + OnesOf(mask / 2) }

  function Missing(same: bool): nat { if same then 0 else 1 }

  function WordCount(flags: U8, mask: U16): nat {
    Missing(Bit(flags, PC_SEQ_BIT)) + Missing(Bit(flags, CPSR_SAME_BIT)) + Missing(Bit(flags, SPSR_SAME_BIT))
    + Missing(Bit(flags, OPCODE_SAME_BIT)) + OnesOf(mask)
  }

  /** `struct.unpack` of little-endian words. */
  function Unpacked(data: seq<U8>): (words: seq<U32>)
    ensures |words| == |data| / 4
  {
    seq(|data| / 4, i requires 0 <= i < |data| / 4 => Word(data, i))
  }

  function At(words: seq<U32>, w: nat): U32 { if w < |words| then words[w] else 0 }

  function RegsFrom(words: seq<U32>, w: nat, mask: U16, regs: seq<U32>, i: nat): (x: seq<U32>)
    requires |regs| == REG_COUNT && i <= REG_COUNT
    ensures |x| == REG_COUNT
    decreases |regs| - i
  {
    if i == REG_COUNT then regs
    else if Bit(mask, i) then RegsFrom(words, w + 1, mask, regs[i := At(words, w)], i + 1)
    else RegsFrom(words, w, mask, regs, i + 1)
  }

  /** The record that the words of a delta describe, taken in turn from index 0. Its processor is the one in
      the flags, where the decoder keeps that of the previous record. */
  function Assemble(p: Record, flags: U8, mask: U16, words: seq<U32>): Record {
    var w1 := Missing(Bit(flags, PC_SEQ_BIT));
    var w2 := w1 + Missing(Bit(flags, CPSR_SAME_BIT));
    var w3 := w2 + Missing(Bit(flags, SPSR_SAME_BIT));
    var w4 := w3 + Missing(Bit(flags, OPCODE_SAME_BIT));
    var cpsr := if Bit(flags, CPSR_SAME_BIT) then p.cpsr else At(words, w1);
    var spsr := if Bit(flags, SPSR_SAME_BIT) then p.spsr else At(words, w2);
    var opcode := if Bit(flags, OPCODE_SAME_BIT) then p.opcode else At(words, w3);
    var regs := if mask == 0 then p.regs else RegsFrom(words, w4, mask, p.regs, 0);
    var pc := if Bit(flags, PC_SEQ_BIT) then NextPc(p.pc, cpsr) else At(words, 0);
    RawRecord(regs, pc, cpsr, spsr, opcode, CpuOf(flags))
  }

  /** Reading one record whose tag has been read: a result, or what is left to read on from. */
  datatype Turn = Done(read: Read) | Again(rest: seq<U8>)

  function TurnInst(bytes: seq<U8>, prev: Prevs): Turn {
    if |bytes| < RECORD_SIZE then Done(NoRecord) else
    var record := DecodeRecord(bytes[..RECORD_SIZE]);
    Done(Got(record, bytes[RECORD_SIZE..], if record.cpu < 2 then prev[record.cpu := Some(record)] else prev))
  }

  /** All words are read at once, so the fields are taken from a buffer that is long enough. */
  function TurnDelta(bytes: seq<U8>, prev: Prevs): Turn {
    if |bytes| < 3 then Done(NoRecord) else
    var flags, mask := bytes[0], bytes[1] as int + 0x100 * bytes[2] as int;
    match prev[CpuOf(flags)]
    case None => Done(NoRecord)
    case Some(p) =>
      var size := 4 * WordCount(flags, mask);
      if |bytes| < 3 + size then Done(NoRecord) else
      var record := Assemble(p, flags, mask, Unpacked(bytes[3..3 + size]));
      Done(Got(record, bytes[3 + size..], prev[CpuOf(flags) := Some(record)]))
  }

  /** The length is unpacked without a check that four bytes were read. */
  function TurnText(bytes: seq<U8>): Turn {
    if |bytes| < 4 then Done(Raised) else
    Again(Skip(Skip(bytes[4..], FromLe32(bytes[..4])), 1))
  }

  function TurnMem(bytes: seq<U8>): Turn {
    if |bytes| < 5 then Done(NoRecord) else
    var width := MemWidth(bytes[0] / 0x20 % 4);
    if bytes[0] % 0x10 >= 7 then
      if |bytes| < 9 then Done(NoRecord) else
      Again(Skip(bytes[9..], width * FromLe32(bytes[5..9])))
    else Again(Skip(bytes[5..], width))
  }

  function TurnOf(tag: U8, bytes: seq<U8>, prev: Prevs): (t: Turn)
    ensures t.Again? ==> |t.rest| <= |bytes|
    ensures t.Done? && t.read.Got? ==> |t.read.rest| <= |bytes|
  {
    if tag == TAG_INST then TurnInst(bytes, prev)
    else if tag == TAG_INST_DELTA then TurnDelta(bytes, prev)
    else if tag == TAG_TEXT then TurnText(bytes)
    else if tag == TAG_MEM then TurnMem(bytes)
    else Done(NoRecord)
  }

  function ReadInstFrom(bytes: seq<U8>, prev: Prevs): (r: Read)
    ensures r.Got? ==> |r.rest| < |bytes|
    decreases |bytes|
  {
    if bytes == [] then NoRecord else
    match TurnOf(bytes[0], bytes[1..], prev)
    case Done(read) => read
    case Again(rest) => ReadInstFrom(rest, prev)
  }

  /** `read_inst`. */
  method ReadInst(file: seq<U8>, prev: Prevs) returns (r: Read)
    ensures r == ReadInstFrom(file, prev)
  {
    var rest := file;
    while rest != []
      invariant ReadInstFrom(rest, prev) == ReadInstFrom(file, prev)
      decreases |rest|
    {
      match TurnOf(rest[0], rest[1..], prev) {
        case Done(read) =>
          return read;
        case Again(left) =>
          rest := left;
      }
    }
    r := NoRecord;
  }

  /** The records that reading a file to its end gives, and whether an exception ended it. */
  function ReadAll(bytes: seq<U8>, prev: Prevs): (seq<Record>, bool)
    decreases |bytes|
  {
    match ReadInstFrom(bytes, prev)
    case NoRecord => ([], false)
    case Raised => ([], true)
    case Got(record, rest, prev') =>
      var (records, raised) := ReadAll(rest, prev');
      ([record] + records, raised)
  }

  function Records(events: seq<Event>): seq<Record> {
    if events == [] then []
    else (if events[0].Executed? then [events[0].record] else []) + Records(events[1..])
  }

  /** Along the records that decoding visits, no delta mask has its unused top bit set and no memory
      record has a kind the logger does not know. */
  ghost predicate Tidy(bytes: seq<U8>, d: Prevs)
    decreases |bytes|
  {
    bytes == [] ||
    (&& TidyHead(bytes[0], bytes[1..])
     && match StepBody(bytes[0], bytes[1..], d)
        case Stop => true
        case More(_, rest, d') => Tidy(rest, d'))
  }

  predicate TidyHead(tag: U8, bytes: seq<U8>) {
    && (tag == TAG_INST_DELTA && |bytes| >= 3 ==> bytes[2] < 0x80)
    && (tag == TAG_MEM && |bytes| >= 1 ==> bytes[0] % 0x10 <= 10)
  }

  // ---- the words of a delta ----

  function OnesFrom(mask: nat, i: nat): nat
    requires i <= REG_COUNT
    decreases REG_COUNT - i
  {
    if i == REG_COUNT then 0 else Missing(!Bit(mask, i)) + OnesFrom(mask, i + 1)
  }

  lemma {:induction false} ShiftedIsZero(mask: nat, n: nat)
    requires mask < Pow2(n)
    ensures Shifted(mask, n) == 0
  {
    if n > 0 {
      ShiftedSucc(mask, n - 1);
      ShiftedIsZero(mask / 2, n - 1);
    }
  }

  lemma {:induction false} ShiftedSucc(mask: nat, n: nat)
    ensures Shifted(mask, n + 1) == Shifted(mask / 2, n)
  {
    if n > 0 {
      ShiftedSucc(mask, n - 1);
    }
  }

  // With the top bit clear, all set bits are those of the fifteen registers.
  lemma {:induction false} OnesAreRegisters(mask: nat, i: nat)
    requires mask < 0x8000 && i <= REG_COUNT
    ensures OnesFrom(mask, i) == OnesOf(Shifted(mask, i))
    decreases REG_COUNT - i
  {
    if i == REG_COUNT {
      assert Pow2(REG_COUNT) == 0x8000;
      ShiftedIsZero(mask, REG_COUNT);
    } else {
      OnesAreRegisters(mask, i + 1);
      HalvedOnes(Shifted(mask, i));
    }
  }

  lemma HalvedOnes(m: nat)
    ensures OnesOf(m) == (if m % 2 == 1 then 1 else 0) + OnesOf(m / 2)
  {
  }

  /** The emulator's reader after `w` words of `body`. */
  function ReaderAt(body: seq<U8>, w: nat): Reader {
    if 4 * w <= |body| then Reader(body[4 * w..], false) else Reader([], true)
  }

  predicate Holds(words: seq<U32>, body: seq<U8>) {
    4 * |words| <= |body| && forall k :: 0 <= k < |words| ==> words[k] == Word(body, k)
  }

  lemma WordAgrees(absent: bool, otherwise: U32, words: seq<U32>, body: seq<U8>, w: nat)
    requires Holds(words, body) && (absent || w < |words|)
    ensures WordUnless(absent, otherwise, ReaderAt(body, w))
         == (if absent then otherwise else At(words, w), ReaderAt(body, w + Missing(absent)))
  {
    if !absent {
      assert body[4 * w..][..4] == body[4 * w..4 * w + 4];
      assert body[4 * w..][4..] == body[4 * (w + 1)..];
    }
  }

  lemma {:induction false} RegsAgree(words: seq<U32>, body: seq<U8>, w: nat, end: nat, mask: U16, regs: seq<U32>,
                                     i: nat)
    requires |regs| == REG_COUNT && i <= REG_COUNT
    requires Holds(words, body) && end == w + OnesFrom(mask, i) <= |words|
    ensures ReadRegs(ReaderAt(body, w), mask, regs, i) == (RegsFrom(words, w, mask, regs, i), ReaderAt(body, end))
    decreases REG_COUNT - i
  {
    if i < REG_COUNT {
      if Bit(mask, i) {
        WordAgrees(false, 0, words, body, w);
        RegsAgree(words, body, w + 1, end, mask, regs[i := At(words, w)], i + 1);
      } else {
        RegsAgree(words, body, w, end, mask, regs, i + 1);
      }
    }
  }

  lemma {:induction false} NoRegsFrom(words: seq<U32>, w: nat, mask: U16, regs: seq<U32>, i: nat)
    requires |regs| == REG_COUNT && i <= REG_COUNT && mask == 0
    ensures RegsFrom(words, w, mask, regs, i) == regs
    decreases REG_COUNT - i
  {
    if i < REG_COUNT {
      ZeroShifted(i);
      NoRegsFrom(words, w, mask, regs, i + 1);
    }
  }

  lemma {:induction false} ZeroShifted(i: nat)
    ensures Shifted(0, i) == 0
  {
    if i > 0 {
      ZeroShifted(i - 1);
    }
  }

  lemma HeadAgrees(p: Record, flags: U8, words: seq<U32>, body: seq<U8>)
    requires Holds(words, body) && |words| >= WordCount(flags, 0)
    ensures
      var w1 := Missing(Bit(flags, PC_SEQ_BIT)); var w2 := w1 + Missing(Bit(flags, CPSR_SAME_BIT));
      var w3 := w2 + Missing(Bit(flags, SPSR_SAME_BIT)); var w4 := w3 + Missing(Bit(flags, OPCODE_SAME_BIT));
      && WordUnless(Bit(flags, PC_SEQ_BIT), 0, Reader(body, false))
      == (if Bit(flags, PC_SEQ_BIT) then 0 else At(words, 0), ReaderAt(body, w1))
      && WordUnless(Bit(flags, CPSR_SAME_BIT), p.cpsr, ReaderAt(body, w1))
      == (if Bit(flags, CPSR_SAME_BIT) then p.cpsr else At(words, w1), ReaderAt(body, w2))
      && WordUnless(Bit(flags, SPSR_SAME_BIT), p.spsr, ReaderAt(body, w2))
      == (if Bit(flags, SPSR_SAME_BIT) then p.spsr else At(words, w2), ReaderAt(body, w3))
      && WordUnless(Bit(flags, OPCODE_SAME_BIT), p.opcode, ReaderAt(body, w3))
      == (if Bit(flags, OPCODE_SAME_BIT) then p.opcode else At(words, w3), ReaderAt(body, w4))
  {
    var w1 := Missing(Bit(flags, PC_SEQ_BIT));
    var w2 := w1 + Missing(Bit(flags, CPSR_SAME_BIT));
    var w3 := w2 + Missing(Bit(flags, SPSR_SAME_BIT));
    assert ReaderAt(body, 0) == Reader(body, false);
    WordAgrees(Bit(flags, PC_SEQ_BIT), 0, words, body, 0);
    WordAgrees(Bit(flags, CPSR_SAME_BIT), p.cpsr, words, body, w1);
    WordAgrees(Bit(flags, SPSR_SAME_BIT), p.spsr, words, body, w2);
    WordAgrees(Bit(flags, OPCODE_SAME_BIT), p.opcode, words, body, w3);
  }

  /** With all its words there, a delta describes the same record to both decoders, and both go on
      behind them. */
  lemma DeltaAgrees(p: Record, flags: U8, mask: U16, words: seq<U32>, body: seq<U8>)
    requires mask < 0x8000 && Holds(words, body) && |words| == WordCount(flags, mask)
    ensures ReadDelta(p, flags, mask, Reader(body, false))
         == (Assemble(p, flags, mask, words).(cpu := p.cpu), ReaderAt(body, |words|))
  {
    HeadAgrees(p, flags, words, body);
    AllRegsAgree(words, body, WordCount(flags, 0), |words|, mask, p.regs, 0);
  }

  // `first` is a parameter so that the fifteen rounds are not unrolled.
  lemma AllRegsAgree(words: seq<U32>, body: seq<U8>, w: nat, end: nat, mask: U16, regs: seq<U32>, first: nat)
    requires |regs| == REG_COUNT && mask < 0x8000 && Holds(words, body) && first == 0
    requires end == w + OnesOf(mask) <= |words|
    ensures ReadRegs(ReaderAt(body, w), mask, regs, first)
         == (if mask == 0 then regs else RegsFrom(words, w, mask, regs, first), ReaderAt(body, end))
  {
    OnesAreRegisters(mask, first);
    RegsAgree(words, body, w, end, mask, regs, first);
    if mask == 0 {
      NoRegsFrom(words, w, mask, regs, first);
    }
  }

  // ---- a delta that is cut off ----

  predicate Consumed(r: Reader, body: seq<U8>, w: nat) {
    r.truncated || (4 * w <= |body| && r == Reader(body[4 * w..], false))
  }

  lemma WordConsumed(absent: bool, otherwise: U32, r: Reader, body: seq<U8>, w: nat)
    requires Consumed(r, body, w)
    ensures Consumed(WordUnless(absent, otherwise, r).1, body, w + Missing(absent))
  {
    if !absent && !r.truncated && |r.rest| >= 4 {
      assert body[4 * w..][4..] == body[4 * (w + 1)..];
    }
  }

  lemma {:induction false} RegsConsumed(r: Reader, body: seq<U8>, w: nat, mask: U16, regs: seq<U32>, i: nat)
    requires |regs| == REG_COUNT && i <= REG_COUNT && Consumed(r, body, w)
    ensures Consumed(ReadRegs(r, mask, regs, i).1, body, w + OnesFrom(mask, i))
    decreases REG_COUNT - i
  {
    if i < REG_COUNT {
      WordConsumed(!Bit(mask, i), 0, r, body, w);
      if Bit(mask, i) {
        RegsConsumed(NextWord(r).1, body, w + 1, mask, regs[i := NextWord(r).0], i + 1);
      } else {
        RegsConsumed(r, body, w, mask, regs, i + 1);
      }
    }
  }

  lemma AllRegsConsumed(r: Reader, body: seq<U8>, w: nat, mask: U16, regs: seq<U32>, first: nat, end: nat)
    requires |regs| == REG_COUNT && mask < 0x8000 && Consumed(r, body, w) && first == 0 && end == w + OnesOf(mask)
    ensures Consumed(ReadRegs(r, mask, regs, first).1, body, end)
  {
    OnesAreRegisters(mask, first);
    assert end == w + OnesFrom(mask, first);
    RegsConsumedTo(r, body, w, end, mask, regs, first);
  }

  lemma RegsConsumedTo(r: Reader, body: seq<U8>, w: nat, end: nat, mask: U16, regs: seq<U32>, i: nat)
    requires |regs| == REG_COUNT && i <= REG_COUNT && Consumed(r, body, w) && end == w + OnesFrom(mask, i)
    ensures Consumed(ReadRegs(r, mask, regs, i).1, body, end)
  {
    RegsConsumed(r, body, w, mask, regs, i);
  }

  lemma CutDelta(p: Record, flags: U8, mask: U16, body: seq<U8>)
    requires mask < 0x8000 && |body| < 4 * WordCount(flags, mask)
    ensures ReadDelta(p, flags, mask, Reader(body, false)).1.truncated
  {
    var w1 := Missing(Bit(flags, PC_SEQ_BIT));
    var w2 := w1 + Missing(Bit(flags, CPSR_SAME_BIT));
    var w3 := w2 + Missing(Bit(flags, SPSR_SAME_BIT));
    WordConsumed(Bit(flags, PC_SEQ_BIT), 0, Reader(body, false), body, 0);
    var r1 := WordUnless(Bit(flags, PC_SEQ_BIT), 0, Reader(body, false)).1;
    WordConsumed(Bit(flags, CPSR_SAME_BIT), p.cpsr, r1, body, w1);
    var r2 := WordUnless(Bit(flags, CPSR_SAME_BIT), p.cpsr, r1).1;
    WordConsumed(Bit(flags, SPSR_SAME_BIT), p.spsr, r2, body, w2);
    var r3 := WordUnless(Bit(flags, SPSR_SAME_BIT), p.spsr, r2).1;
    WordConsumed(Bit(flags, OPCODE_SAME_BIT), p.opcode, r3, body, w3);
    var r4 := WordUnless(Bit(flags, OPCODE_SAME_BIT), p.opcode, r3).1;
    AllRegsConsumed(r4, body, WordCount(flags, 0), mask, p.regs, 0, WordCount(flags, mask));
  }

  // ---- the two decoders ----

  /** What one turn of the record reader has to do with one step of the decoder. */
  ghost predicate Matches(s: Step, t: Turn, d: Prevs) {
    if t.Again? then (if s.Stop? then t.rest == [] else Records(s.events) == [] && s.rest == t.rest && s.prev == d)
    else if t.read.Got? then s == More([Executed(t.read.record)], t.read.rest, t.read.prev)
    else s.Stop?
  }

  lemma {:induction false} SliceSkips(cpu: U8, kind: U8, addr: U32, width: nat, count: nat, i: nat, bytes: seq<U8>)
    requires i <= count && width <= 4
    ensures var (events, rest) := SliceEvents(cpu, kind, addr, width, count, i, bytes);
      Records(events) == [] && rest == Skip(bytes, width * (count - i))
    decreases count - i
  {
    var n := width * (count - i);
    if i == count {
      assert n == 0;
    } else {
      assert n == width + width * (count - (i + 1));
      if |bytes| < width {
        assert n >= width;
      } else {
        SliceSkips(cpu, kind, addr, width, count, i + 1, bytes[width..]);
        assert n <= |bytes| ==> bytes[width..][n - width..] == bytes[n..];
      }
    }
  }

  lemma MemMatches(bytes: seq<U8>, d: Prevs)
    requires |bytes| >= 5 ==> bytes[0] % 0x10 <= 10
    ensures Matches(StepMem(bytes, d), TurnMem(bytes), d)
  {
    if |bytes| >= 5 {
      var kind, cpu, width := bytes[0] % 0x10, bytes[0] / 0x10 % 2, MemWidth(bytes[0] / 0x20 % 4);
      if MemIsSlice(kind) && |bytes| >= 9 {
        SliceSkips(cpu, kind, FromLe32(bytes[1..5]), width, FromLe32(bytes[5..9]), 0, bytes[9..]);
      }
    }
  }

  lemma TextMatches(bytes: seq<U8>, d: Prevs)
    ensures Matches(StepText(bytes, d), TurnText(bytes), d)
  {
    if |bytes| >= 4 {
      var len: int := FromLe32(bytes[..4]);
      if |bytes| >= 4 + len + 1 {
        assert bytes[4..][len..][1..] == bytes[4 + len + 1..];
      }
    }
  }

  lemma StepOfDelta(bytes: seq<U8>, d: Prevs, flags: U8, mask: U16, p: Record, r: Record, rest: seq<U8>)
    requires |bytes| >= 3 && flags == bytes[0] && mask == bytes[1] as int + 0x100 * bytes[2] as int
    requires d[CpuOf(flags)] == Some(p)
    requires ReadDelta(p, flags, mask, Reader(bytes[3..], false)) == (r, Reader(rest, false))
    ensures StepDelta(bytes, d) == More([Executed(r)], rest, d[CpuOf(flags) := Some(r)])
  {
  }

  lemma TurnOfDelta(bytes: seq<U8>, d: Prevs, flags: U8, mask: U16, p: Record, size: nat)
    requires |bytes| >= 3 && flags == bytes[0] && mask == bytes[1] as int + 0x100 * bytes[2] as int
    requires d[CpuOf(flags)] == Some(p) && size == 4 * WordCount(flags, mask) && |bytes| >= 3 + size
    ensures var r := Assemble(p, flags, mask, Unpacked(bytes[3..3 + size]));
      TurnDelta(bytes, d) == Done(Got(r, bytes[3 + size..], d[CpuOf(flags) := Some(r)]))
  {
  }

  lemma ReadsWhole(p: Record, flags: U8, mask: U16, words: seq<U32>, body: seq<U8>, rest: seq<U8>)
    requires mask < 0x8000 && Holds(words, body) && |words| == WordCount(flags, mask) && rest == body[4 * |words|..]
    ensures ReadDelta(p, flags, mask, Reader(body, false))
         == (Assemble(p, flags, mask, words).(cpu := p.cpu), Reader(rest, false))
  {
    DeltaAgrees(p, flags, mask, words, body);
  }

  lemma WholeDelta(bytes: seq<U8>, d: Prevs, flags: U8, mask: U16, p: Record, size: nat)
    requires |bytes| >= 3 && bytes[2] < 0x80 && flags == bytes[0] && mask == bytes[1] as int + 0x100 * bytes[2] as int
    requires d[CpuOf(flags)] == Some(p) && size == 4 * WordCount(flags, mask) && |bytes| >= 3 + size
    ensures var r := Assemble(p, flags, mask, Unpacked(bytes[3..3 + size])); var rest := bytes[3 + size..];
      && TurnDelta(bytes, d) == Done(Got(r, rest, d[CpuOf(flags) := Some(r)]))
      && StepDelta(bytes, d) == More([Executed(r.(cpu := p.cpu))], rest, d[CpuOf(flags) := Some(r.(cpu := p.cpu))])
  {
    var data, body := bytes[3..3 + size], bytes[3..];
    var words := Unpacked(data);
    UnpackedHolds(data, body);
    assert body[size..] == bytes[3 + size..];
    ReadsWhole(p, flags, mask, words, body, bytes[3 + size..]);
    StepOfDelta(bytes, d, flags, mask, p, Assemble(p, flags, mask, words).(cpu := p.cpu), bytes[3 + size..]);
    TurnOfDelta(bytes, d, flags, mask, p, size);
  }

  lemma SameRecordMatches(r: Record, cpu: U8, rest: seq<U8>, prev: Prevs, i: nat, d: Prevs)
    requires i < 2
    ensures var x := r.(cpu := cpu);
      Matches(More([Executed(x)], rest, prev[i := Some(x)]), Done(Got(r, rest, prev[i := Some(r)])), d)
      <==> r.cpu == cpu
  {
    var x := r.(cpu := cpu);
    if r.cpu == cpu {
      assert x == r;
    } else {
      assert [Executed(x)][0] != [Executed(r)][0];
    }
  }

  lemma DeltaMatches(bytes: seq<U8>, d: Prevs)
    requires |bytes| >= 3 ==> bytes[2] < 0x80
    ensures Matches(StepDelta(bytes, d), TurnDelta(bytes, d), d) <==> !DeltaDiffers(bytes, d)
  {
    if |bytes| >= 3 {
      var flags, mask: U16 := bytes[0], bytes[1] as int + 0x100 * bytes[2] as int;
      match d[CpuOf(flags)]
      case None =>
      case Some(p) =>
        var size := 4 * WordCount(flags, mask);
        if |bytes| - 3 < size {
          CutDelta(p, flags, mask, bytes[3..]);
        } else {
          WholeDelta(bytes, d, flags, mask, p, size);
          var r := Assemble(p, flags, mask, Unpacked(bytes[3..3 + size]));
          SameRecordMatches(r, p.cpu, bytes[3 + size..], d, CpuOf(flags), d);
        }
    }
  }

  lemma UnpackedHolds(data: seq<U8>, body: seq<U8>)
    requires data <= body
    ensures Holds(Unpacked(data), body)
  {
    forall k | 0 <= k < |Unpacked(data)|
      ensures Unpacked(data)[k] == Word(body, k)
    {
      assert data[4 * k..4 * k + 4] == body[4 * k..4 * k + 4];
    }
  }

  // ---- where a turn does not match ----

  /** The mask without its top bit, which stands for no register. */
  function RegisterMask(mask: U16): (m: U16)
    ensures m < 0x8000
  {
    if mask >= 0x8000 then mask - 0x8000 else mask
  }

  /** The top mask bit makes the record reader take a word more than the decoder, and a record of another
      processor in the slot of this one makes it name a different processor. Neither shows when there is no
      record to apply the delta to, or when the words of the registers are not all there. */
  predicate DeltaDiffers(bytes: seq<U8>, d: Prevs) {
    && |bytes| >= 3 && d[CpuOf(bytes[0])].Some?
    && |bytes| - 3 >= 4 * WordCount(bytes[0], RegisterMask(bytes[1] as int + 0x100 * bytes[2] as int))
    && (bytes[2] >= 0x80 || d[CpuOf(bytes[0])].value.cpu != CpuOf(bytes[0]))
  }

  /** Each slot holds a record of its own processor, as it does in every state that decoding reaches. */
  predicate OwnSlots(d: Prevs) { forall c :: 0 <= c < 2 && d[c].Some? ==> d[c].value.cpu == c }

  lemma StepKeepsOwnSlots(tag: U8, bytes: seq<U8>, d: Prevs)
    requires OwnSlots(d)
    ensures var s := StepBody(tag, bytes, d); s.More? ==> OwnSlots(s.prev)
  {
  }

  /** A kind past the last one is a slice to the record reader and a single access to the decoder. It does
      not show when the value is cut off, or when it takes four bytes that read as the count 0 or end the
      file. */
  predicate MemDiffers(bytes: seq<U8>) {
    && |bytes| >= 5 && bytes[0] % 0x10 > 10
    && var width := MemWidth(bytes[0] / 0x20 % 4);
    |bytes| >= 5 + width && !(|bytes| >= 9 && width == 4 && (FromLe32(bytes[5..9]) == 0 || |bytes| == 9))
  }

  predicate Differs(tag: U8, bytes: seq<U8>, d: Prevs) {
    (tag == TAG_INST_DELTA && DeltaDiffers(bytes, d)) || (tag == TAG_MEM && MemDiffers(bytes))
  }

  lemma {:induction false} TopBitAdds(m: nat, n: nat, i: nat)
    requires i <= n
    ensures Shifted(m + Pow2(n), i) == Shifted(m, i) + Pow2(n - i)
    decreases i
  {
    if i > 0 {
      TopBitAdds(m, n, i - 1);
      HalfOfSum(Shifted(m, i - 1), Pow2(n - i));
    }
  }

  lemma HalfOfSum(a: nat, b: nat)
    ensures (a + 2 * b) / 2 == a / 2 + b && (a + 2 * b) % 2 == a % 2
  {
  }

  lemma TopBitHidden(m: nat, i: nat)
    requires i < REG_COUNT
    ensures Bit(m + 0x8000, i) == Bit(m, i)
  {
    assert Pow2(REG_COUNT) == 0x8000;
    TopBitAdds(m, REG_COUNT, i);
    HalfOfSum(Shifted(m, i), Pow2(REG_COUNT - i - 1));
  }

  lemma {:induction false} TopBitCounts(m: nat, n: nat)
    requires m < Pow2(n)
    ensures OnesOf(m + Pow2(n)) == OnesOf(m) + 1
    decreases n
  {
    if n > 0 {
      HalfOfSum(m, Pow2(n - 1));
      TopBitCounts(m / 2, n - 1);
      HalvedOnes(m);
      HalvedOnes(m + Pow2(n));
    }
  }

  lemma {:induction false} RegsIgnoreTopBit(r: Reader, m: U16, mask: U16, regs: seq<U32>, i: nat)
    requires |regs| == REG_COUNT && i <= REG_COUNT && mask == m + 0x8000
    ensures ReadRegs(r, mask, regs, i) == ReadRegs(r, m, regs, i)
    decreases REG_COUNT - i
  {
    if i < REG_COUNT {
      TopBitHidden(m, i);
      if Bit(m, i) {
        var (w, r1) := NextWord(r);
        RegsIgnoreTopBit(r1, m, mask, regs[i := w], i + 1);
      } else {
        RegsIgnoreTopBit(r, m, mask, regs, i + 1);
      }
    }
  }

  // `first` is a parameter so that the fifteen rounds are not unrolled.
  lemma DeltaIgnoresTopBit(p: Record, flags: U8, m: U16, mask: U16, r: Reader, first: nat)
    requires mask == m + 0x8000 && first == 0
    ensures ReadDelta(p, flags, mask, r) == ReadDelta(p, flags, m, r)
  {
    var r1 := WordUnless(Bit(flags, PC_SEQ_BIT), 0, r).1;
    var r2 := WordUnless(Bit(flags, CPSR_SAME_BIT), p.cpsr, r1).1;
    var r3 := WordUnless(Bit(flags, SPSR_SAME_BIT), p.spsr, r2).1;
    var r4 := WordUnless(Bit(flags, OPCODE_SAME_BIT), p.opcode, r3).1;
    RegsIgnoreTopBit(r4, m, mask, p.regs, first);
  }

  lemma TopBitTakesAWord(flags: U8, mask: U16)
    requires mask >= 0x8000
    ensures WordCount(flags, mask) == WordCount(flags, RegisterMask(mask)) + 1
  {
    assert Pow2(REG_COUNT) == 0x8000;
    TopBitCounts(RegisterMask(mask), REG_COUNT);
  }

  /** How far the decoder reads a delta whose mask has the top bit clear. */
  lemma DeltaReads(p: Record, flags: U8, m: U16, body: seq<U8>)
    requires m < 0x8000
    ensures var r, n := ReadDelta(p, flags, m, Reader(body, false)).1, WordCount(flags, m);
      if |body| < 4 * n then r.truncated else !r.truncated && |r.rest| == |body| - 4 * n
  {
    var n := WordCount(flags, m);
    if |body| < 4 * n {
      CutDelta(p, flags, m, body);
    } else {
      var data := body[..4 * n];
      UnpackedHolds(data, body);
      DeltaAgrees(p, flags, m, Unpacked(data), body);
    }
  }

  /** The decoder's side of a delta with the top bit set: as if it were clear. */
  lemma TopBitStep(bytes: seq<U8>, d: Prevs, flags: U8, m: U16, body: seq<U8>, p: Record)
    requires |bytes| >= 3 && bytes[2] >= 0x80 && flags == bytes[0] && body == bytes[3..]
    requires m == RegisterMask(bytes[1] as int + 0x100 * bytes[2] as int) && d[CpuOf(flags)] == Some(p)
    ensures var s, n := StepDelta(bytes, d), WordCount(flags, m);
      if |body| < 4 * n then s.Stop? else s.More? && |s.rest| == |body| - 4 * n
  {
    DeltaIgnoresTopBit(p, flags, m, bytes[1] as int + 0x100 * bytes[2] as int, Reader(body, false), 0);
    DeltaReads(p, flags, m, body);
  }

  lemma TopBitTurn(bytes: seq<U8>, d: Prevs, n: nat)
    requires |bytes| >= 3 && bytes[2] >= 0x80 && d[CpuOf(bytes[0])].Some?
    requires n == WordCount(bytes[0], RegisterMask(bytes[1] as int + 0x100 * bytes[2] as int))
    ensures var t := TurnDelta(bytes, d); t.Done? && !t.read.Raised?
    ensures var t := TurnDelta(bytes, d);
      if |bytes| - 3 < 4 * n + 4 then t.read.NoRecord? else t.read.Got? && |t.read.rest| == |bytes| - 3 - (4 * n + 4)
  {
    TopBitTakesAWord(bytes[0], bytes[1] as int + 0x100 * bytes[2] as int);
  }

  lemma TopBitDelta(bytes: seq<U8>, d: Prevs)
    requires |bytes| >= 3 && bytes[2] >= 0x80
    ensures Matches(StepDelta(bytes, d), TurnDelta(bytes, d), d) <==> !DeltaDiffers(bytes, d)
  {
    var flags, m := bytes[0], RegisterMask(bytes[1] as int + 0x100 * bytes[2] as int);
    if d[CpuOf(flags)].Some? {
      var n := WordCount(flags, m);
      TopBitStep(bytes, d, flags, m, bytes[3..], d[CpuOf(flags)].value);
      TopBitTurn(bytes, d, n);
      if |bytes| - 3 >= 4 * n {
        TakesMore(StepDelta(bytes, d), TurnDelta(bytes, d), d, |bytes| - 3 - 4 * n);
      }
    }
  }

  lemma TakesMore(s: Step, t: Turn, d: Prevs, left: nat)
    requires s.More? && |s.rest| == left && t.Done? && (t.read.Got? ==> |t.read.rest| != left)
    ensures !Matches(s, t, d)
  {
  }

  lemma SkipsSame(bytes: seq<U8>, width: nat, count: nat)
    requires |bytes| >= 9 && (width == 4 || width <= 2)
    ensures bytes[5 + width..] == Skip(bytes[9..], width * count) <==> width == 4 && (count == 0 || |bytes| == 9)
  {
    ProductOf(width, count);
    var skipped := Skip(bytes[9..], width * count);
    if width == 4 && count > 0 && |bytes| > 9 {
      assert |skipped| < |bytes| - 9;
    } else if width < 4 {
      assert |skipped| <= |bytes| - 9;
    }
  }

  lemma UnknownKindStep(bytes: seq<U8>, d: Prevs, width: nat)
    requires |bytes| >= 5 && bytes[0] % 0x10 > 10 && width == MemWidth(bytes[0] / 0x20 % 4)
    ensures var s := StepMem(bytes, d);
      if |bytes| < 5 + width then s.Stop?
      else s.More? && |s.events| == 1 && s.events[0].Access? && s.rest == bytes[5 + width..] && s.prev == d
  {
  }

  lemma OneAccess(events: seq<Event>)
    requires |events| == 1 && events[0].Access?
    ensures Records(events) == []
  {
    assert events[1..] == [];
  }

  lemma UnknownKind(bytes: seq<U8>, d: Prevs)
    requires |bytes| >= 5 && bytes[0] % 0x10 > 10
    ensures Matches(StepMem(bytes, d), TurnMem(bytes), d) <==> !MemDiffers(bytes)
  {
    var width, s, t := MemWidth(bytes[0] / 0x20 % 4), StepMem(bytes, d), TurnMem(bytes);
    UnknownKindStep(bytes, d, width);
    if |bytes| < 9 {
      assert t == Done(NoRecord);
    } else {
      var count := FromLe32(bytes[5..9]);
      assert t == Again(Skip(bytes[9..], width * count));
      SkipsSame(bytes, width, count);
      OneAccess(s.events);
    }
  }

  lemma ProductOf(width: nat, count: nat)
    ensures count == 0 ==> width * count == 0
    ensures count > 0 ==> width * count >= width
  {
    if count > 0 {
      assert width * count == width + width * (count - 1);
    }
  }

  /** Exactly when the two decoders make the same of what follows a tag: the same record or none, the same
      bytes left, the same state. */
  lemma TurnMatchesExactly(tag: U8, bytes: seq<U8>, d: Prevs)
    ensures Matches(StepBody(tag, bytes, d), TurnOf(tag, bytes, d), d) <==> !Differs(tag, bytes, d)
  {
    if tag == TAG_INST_DELTA {
      if |bytes| >= 3 && bytes[2] >= 0x80 {
        TopBitDelta(bytes, d);
      } else {
        DeltaMatches(bytes, d);
      }
    } else if tag == TAG_TEXT {
      TextMatches(bytes, d);
    } else if tag == TAG_MEM {
      if |bytes| >= 5 && bytes[0] % 0x10 > 10 {
        UnknownKind(bytes, d);
      } else {
        MemMatches(bytes, d);
      }
    }
  }

  lemma {:induction false} RecordsConcat(a: seq<Event>, b: seq<Event>)
    ensures Records(a + b) == Records(a) + Records(b)
  {
    if a == [] {
      assert a + b == b;
    } else {
      assert (a + b)[1..] == a[1..] + b;
      RecordsConcat(a[1..], b);
    }
  }

  /** One turn of the reader, as one step of reading everything. */
  lemma ReadAllTurn(bytes: seq<U8>, d: Prevs)
    requires bytes != []
    ensures var t := TurnOf(bytes[0], bytes[1..], d);
      ReadAll(bytes, d) ==
      if t.Again? then ReadAll(t.rest, d)
      else if t.read.Got? then
        ([t.read.record] + ReadAll(t.read.rest, t.read.prev).0, ReadAll(t.read.rest, t.read.prev).1)
      else ([], t.read.Raised?)
  {
  }

  /** No record that decoding visits is one that the decoders take apart differently. */
  ghost predicate NoneDiffers(bytes: seq<U8>, d: Prevs)
    decreases |bytes|
  {
    bytes == [] ||
    (&& !Differs(bytes[0], bytes[1..], d)
     && match StepBody(bytes[0], bytes[1..], d)
        case Stop => true
        case More(_, rest, d') => NoneDiffers(rest, d'))
  }

  /** The decoders go through the file record by record: same records, same places, same states. */
  ghost predicate InStep(bytes: seq<U8>, d: Prevs)
    decreases |bytes|
  {
    bytes == [] ||
    var s := StepBody(bytes[0], bytes[1..], d);
    Matches(s, TurnOf(bytes[0], bytes[1..], d), d) && (s.More? ==> InStep(s.rest, s.prev))
  }

  /** They stay in step on a file exactly when none of its records differs. */
  lemma {:induction false} InStepExactly(bytes: seq<U8>, d: Prevs)
    ensures InStep(bytes, d) <==> NoneDiffers(bytes, d)
    decreases |bytes|
  {
    if bytes != [] {
      TurnMatchesExactly(bytes[0], bytes[1..], d);
      var s := StepBody(bytes[0], bytes[1..], d);
      if s.More? {
        InStepExactly(s.rest, s.prev);
      }
    }
  }

  /** In step, they reconstruct the same records. */
  lemma {:induction false} DecodersAgree(bytes: seq<U8>, d: Prevs)
    requires NoneDiffers(bytes, d)
    ensures ReadAll(bytes, d).0 == Records(Decode(bytes, d))
    decreases |bytes|
  {
    if bytes != [] {
      var s := StepBody(bytes[0], bytes[1..], d);
      TurnMatchesExactly(bytes[0], bytes[1..], d);
      ReadAllTurn(bytes, d);
      if s.More? {
        RecordsConcat(s.events, Decode(s.rest, s.prev));
        DecodersAgree(s.rest, s.prev);
      }
    }
  }

  /** From such a state, the top mask bit and unused kinds are the only differences. */
  lemma {:induction false} TidyDoesNotDiffer(bytes: seq<U8>, d: Prevs)
    requires Tidy(bytes, d) && OwnSlots(d)
    ensures NoneDiffers(bytes, d)
    decreases |bytes|
  {
    if bytes != [] {
      var s := StepBody(bytes[0], bytes[1..], d);
      if s.More? {
        StepKeepsOwnSlots(bytes[0], bytes[1..], d);
        TidyDoesNotDiffer(s.rest, s.prev);
      }
    }
  }

  // ---- written logs are tidy ----

  lemma HeadIsTidy(item: Item, w: Prevs2, tail: seq<U8>)
    requires item.Ok() && EncodeItem(w, item) != []
    ensures var bytes := EncodeItem(w, item) + tail; TidyHead(bytes[0], bytes[1..])
  {
    var bytes := EncodeItem(w, item) + tail;
    match item
    case Inst(r, _) =>
      if !NeedsKeyframe(w[r.cpu]) {
        assert bytes[1..][2] == Mask(w[r.cpu].record, r) / 0x100;
      }
    case Text(_, _) =>
    case Mem(cpu, kind, _, value) => MetaFields(cpu, kind, WidthCode(value));
    case MemSlice(cpu, kind, _, size, _) => MetaFields(cpu, kind, SizeCode(size));
  }

  lemma {:induction false} LogIsTidy(items: seq<Item>, w: Prevs2, d: Prevs)
    requires AllOk(items) && Mirrors(d, w)
    ensures Tidy(Encode(w, items), d)
    decreases |items|
  {
    if items != [] {
      var item, rest := items[0], items[1..];
      var tail := Encode(AfterItem(w, item), rest);
      if EncodeItem(w, item) == [] {
        assert [] + tail == tail;
        LogIsTidy(rest, AfterItem(w, item), d);
      } else {
        ItemRoundTrip(item, w, d, tail);
        HeadIsTidy(item, w, tail);
        LogIsTidy(rest, AfterItem(w, item), AfterEvent(item, d));
      }
    }
  }

  lemma {:induction false} PrefixIsTidy(bytes: seq<U8>, ext: seq<U8>, d: Prevs)
    requires Tidy(bytes + ext, d)
    ensures Tidy(bytes, d)
    decreases |bytes|
  {
    if bytes != [] {
      assert (bytes + ext)[1..] == bytes[1..] + ext;
      StepPrefix(bytes[0], bytes[1..], ext, d);
      var s := StepBody(bytes[0], bytes[1..], d);
      if s.More? && s.rest != [] {
        PrefixIsTidy(s.rest, ext, s.prev);
      }
    }
  }

  // ---- where reading a written log raises ----

  /** Only a text record whose four length bytes are not all there raises. */
  lemma RaisesExactly(tag: U8, bytes: seq<U8>, d: Prevs)
    ensures TurnOf(tag, bytes, d) == Done(Raised) <==> tag == TAG_TEXT && |bytes| < 4
  {
  }

  /** Where the bytes of the `k`-th log call start. */
  function Start(w: Prevs2, items: seq<Item>, k: nat): nat
    requires AllOk(items) && k <= |items|
    decreases k
  {
    if k == 0 then 0 else |EncodeItem(w, items[0])| + Start(AfterItem(w, items[0]), items[1..], k - 1)
  }

  /** The first `cut` bytes of a log end within the length of its `k`-th record, a text, or right before. */
  ghost predicate CutInLength(w: Prevs2, items: seq<Item>, cut: nat, k: nat)
    requires AllOk(items)
  {
    k < |items| && items[k].Text? && Start(w, items, k) < cut <= Start(w, items, k) + 4
  }

  ghost predicate CutInSomeLength(w: Prevs2, items: seq<Item>, cut: nat)
    requires AllOk(items)
  {
    exists k: nat :: CutInLength(w, items, cut, k)
  }

  lemma CutInLater(w: Prevs2, items: seq<Item>, cut: nat, first: nat, k: nat)
    requires AllOk(items) && items != [] && k > 0 && first == |EncodeItem(w, items[0])| <= cut
    ensures CutInLength(w, items, cut, k) <==> CutInLength(AfterItem(w, items[0]), items[1..], cut - first, k - 1)
  {
    if k < |items| {
      assert items[1..][k - 1] == items[k];
      assert Start(w, items, k) == first + Start(AfterItem(w, items[0]), items[1..], k - 1);
    }
  }

  lemma TextIsLong(w: Prevs2, item: Item)
    requires item.Ok() && item.Text?
    ensures |EncodeItem(w, item)| >= 6
  {
  }

  lemma CutInRest(w: Prevs2, items: seq<Item>, cut: nat, first: nat)
    requires AllOk(items) && items != [] && first == |EncodeItem(w, items[0])| <= cut
    ensures CutInSomeLength(w, items, cut) <==> CutInSomeLength(AfterItem(w, items[0]), items[1..], cut - first)
  {
    if CutInSomeLength(w, items, cut) {
      var k: nat :| CutInLength(w, items, cut, k);
      if k == 0 {
        TextIsLong(w, items[0]);
      } else {
        CutInLater(w, items, cut, first, k);
      }
    }
    if CutInSomeLength(AfterItem(w, items[0]), items[1..], cut - first) {
      var k: nat :| CutInLength(AfterItem(w, items[0]), items[1..], cut - first, k);
      CutInLater(w, items, cut, first, k + 1);
    }
  }

  lemma LaterStart(w: Prevs2, items: seq<Item>, k: nat)
    requires AllOk(items) && 0 < k <= |items|
    ensures Start(w, items, k) >= |EncodeItem(w, items[0])|
  {
  }

  lemma CutInFirst(w: Prevs2, items: seq<Item>, cut: nat)
    requires AllOk(items) && items != [] && cut < |EncodeItem(w, items[0])|
    ensures CutInSomeLength(w, items, cut) <==> items[0].Text? && 0 < cut <= 4
  {
    if CutInSomeLength(w, items, cut) {
      var k: nat :| CutInLength(w, items, cut, k);
      if k > 0 {
        LaterStart(w, items, k);
      }
    }
    if items[0].Text? && 0 < cut <= 4 {
      assert CutInLength(w, items, cut, 0);
    }
  }

  lemma TagOfText(w: Prevs2, item: Item)
    requires item.Ok() && EncodeItem(w, item) != []
    ensures EncodeItem(w, item)[0] == TAG_TEXT <==> item.Text?
  {
  }

  lemma HeadDoesNotDiffer(item: Item, w: Prevs2, d: Prevs, tail: seq<U8>)
    requires item.Ok() && Mirrors(d, w) && EncodeItem(w, item) != []
    ensures var bytes := EncodeItem(w, item) + tail; TidyHead(bytes[0], bytes[1..]) && !Differs(bytes[0], bytes[1..], d)
  {
    var bytes := EncodeItem(w, item) + tail;
    HeadIsTidy(item, w, tail);
    if item.Inst? && !NeedsKeyframe(w[item.record.cpu]) {
      var p := w[item.record.cpu].record;
      FlagBits(p, item.record);
      assert bytes[1..][0] == Flags(p, item.record);
    }
  }

  lemma CutDoesNotDiffer(tag: U8, bytes: seq<U8>, ext: seq<U8>, d: Prevs)
    requires TidyHead(tag, bytes + ext) && !Differs(tag, bytes + ext, d)
    ensures !Differs(tag, bytes, d)
  {
  }

  /** Past a whole record, reading goes on behind it. */
  lemma ReadsPast(item: Item, w: Prevs2, d: Prevs, tail: seq<U8>)
    requires item.Ok() && Mirrors(d, w) && EncodeItem(w, item) != []
    ensures ReadAll(EncodeItem(w, item) + tail, d).1 == ReadAll(tail, AfterEvent(item, d)).1
  {
    var bytes := EncodeItem(w, item) + tail;
    ItemRoundTrip(item, w, d, tail);
    HeadDoesNotDiffer(item, w, d, tail);
    TurnMatchesExactly(bytes[0], bytes[1..], d);
    ReadAllTurn(bytes, d);
  }

  /** A record cut off in the middle ends the reading, with an exception in the one case. */
  lemma ReadsCut(item: Item, w: Prevs2, d: Prevs, cut: nat)
    requires item.Ok() && Mirrors(d, w) && 0 < cut < |EncodeItem(w, item)|
    ensures ReadAll(EncodeItem(w, item)[..cut], d).1 == (item.Text? && cut <= 4)
  {
    var whole := EncodeItem(w, item);
    var bytes, ext := whole[..cut], whole[cut..];
    assert whole == bytes + ext == whole + [];
    assert whole[1..] == bytes[1..] + ext;
    ItemRoundTrip(item, w, d, []);
    HeadDoesNotDiffer(item, w, d, []);
    CutDoesNotDiffer(bytes[0], bytes[1..], ext, d);
    TagOfText(w, item);
    StepPrefix(bytes[0], bytes[1..], ext, d);
    TurnMatchesExactly(bytes[0], bytes[1..], d);
    RaisesExactly(bytes[0], bytes[1..], d);
    ReadAllTurn(bytes, d);
    StepEndsAtCut(StepBody(bytes[0], bytes[1..], d), StepBody(bytes[0], whole[1..], d), ext);
  }

  lemma StepEndsAtCut(s: Step, longer: Step, ext: seq<U8>)
    requires Extends(s, longer, ext) && longer.More? && longer.rest == [] && ext != []
    ensures s.More? ==> s.rest == []
  {
  }

  lemma CutBehind(first: seq<U8>, tail: seq<U8>, cut: nat)
    requires |first| <= cut <= |first| + |tail|
    ensures (first + tail)[..cut] == first + tail[..cut - |first|]
  {
  }

  lemma CutInside(first: seq<U8>, tail: seq<U8>, cut: nat)
    requires cut <= |first|
    ensures (first + tail)[..cut] == first[..cut]
  {
  }

  lemma MirrorsOn(item: Item, w: Prevs2, d: Prevs)
    requires item.Ok() && Mirrors(d, w)
    ensures Mirrors(if EncodeItem(w, item) == [] then d else AfterEvent(item, d), AfterItem(w, item))
  {
    if EncodeItem(w, item) != [] {
      ItemRoundTrip(item, w, d, []);
    }
  }

  ghost predicate RaisesAtCut(items: seq<Item>, w: Prevs2, d: Prevs, cut: nat)
    requires AllOk(items) && cut <= |Encode(w, items)|
  {
    ReadAll(Encode(w, items)[..cut], d).1 <==> CutInSomeLength(w, items, cut)
  }

  lemma EncodeSplit(w: Prevs2, items: seq<Item>)
    requires AllOk(items) && items != []
    ensures Encode(w, items) == EncodeItem(w, items[0]) + Encode(AfterItem(w, items[0]), items[1..])
  {
  }

  lemma RaisesInFirst(items: seq<Item>, w: Prevs2, d: Prevs, cut: nat, first: seq<U8>, tail: seq<U8>)
    requires AllOk(items) && items != [] && Mirrors(d, w) && first == EncodeItem(w, items[0]) && cut < |first|
    requires Encode(w, items) == first + tail
    ensures RaisesAtCut(items, w, d, cut)
  {
    CutInFirst(w, items, cut);
    CutInside(first, tail, cut);
    CutsFirst(items[0], w, d, cut);
  }

  lemma RaisesInRest(items: seq<Item>, w: Prevs2, d: Prevs, d1: Prevs, cut: nat, first: seq<U8>, tail: seq<U8>,
                     behind: nat)
    requires AllOk(items) && items != [] && Mirrors(d, w) && first == EncodeItem(w, items[0])
    requires cut == |first| + behind && behind <= |tail| && Encode(w, items) == first + tail
    requires tail == Encode(AfterItem(w, items[0]), items[1..])
    requires d1 == if first == [] then d else AfterEvent(items[0], d)
    requires RaisesAtCut(items[1..], AfterItem(w, items[0]), d1, behind)
    ensures RaisesAtCut(items, w, d, cut)
  {
    CutInRest(w, items, cut, |first|);
    PassesCut(items[0], w, d, d1, cut, first, tail, Encode(w, items)[..cut], tail[..behind]);
  }

  lemma PassesCut(item: Item, w: Prevs2, d: Prevs, d1: Prevs, cut: nat, first: seq<U8>, tail: seq<U8>, file: seq<U8>,
                  left: seq<U8>)
    requires item.Ok() && Mirrors(d, w) && first == EncodeItem(w, item) && |first| <= cut <= |first| + |tail|
    requires d1 == if first == [] then d else AfterEvent(item, d)
    requires file == (first + tail)[..cut] && left == tail[..cut - |first|]
    ensures ReadAll(file, d).1 == ReadAll(left, d1).1
  {
    CutBehind(first, tail, cut);
    PassesFirst(item, w, d, left);
  }

  /** Reading the first `cut` bytes of a written log raises an exception exactly when they end within the
      length of a text record, or right behind its tag. */
  lemma {:induction false} CutLogRaisesExactly(items: seq<Item>, w: Prevs2, d: Prevs, cut: nat)
    requires AllOk(items) && Mirrors(d, w) && cut <= |Encode(w, items)|
    ensures RaisesAtCut(items, w, d, cut)
    decreases |items|
  {
    if items == [] {
      NothingRaises(d);
    } else {
      var w1, rest := AfterItem(w, items[0]), items[1..];
      var first, tail := EncodeItem(w, items[0]), Encode(w1, rest);
      EncodeSplit(w, items);
      if cut >= |first| {
        var d1 := if first == [] then d else AfterEvent(items[0], d);
        MirrorsOn(items[0], w, d);
        CutLogRaisesExactly(rest, w1, d1, cut - |first|);
        RaisesInRest(items, w, d, d1, cut, first, tail, cut - |first|);
      } else {
        RaisesInFirst(items, w, d, cut, first, tail);
      }
    }
  }

  lemma NothingRaises(d: Prevs)
    ensures !ReadAll([], d).1
  {
  }

  lemma PassesFirst(item: Item, w: Prevs2, d: Prevs, tail: seq<U8>)
    requires item.Ok() && Mirrors(d, w)
    ensures ReadAll(EncodeItem(w, item) + tail, d).1
      == ReadAll(tail, if EncodeItem(w, item) == [] then d else AfterEvent(item, d)).1
  {
    if EncodeItem(w, item) == [] {
      assert EncodeItem(w, item) + tail == tail;
    } else {
      ReadsPast(item, w, d, tail);
    }
  }

  lemma CutsFirst(item: Item, w: Prevs2, d: Prevs, cut: nat)
    requires item.Ok() && Mirrors(d, w) && cut < |EncodeItem(w, item)|
    ensures ReadAll(EncodeItem(w, item)[..cut], d).1 == (item.Text? && 0 < cut <= 4)
  {
    if cut == 0 {
      NothingRaises(d);
      assert EncodeItem(w, item)[..0] == [];
    } else {
      ReadsCut(item, w, d, cut);
    }
  }

  lemma {:induction false} StartIsWithin(w: Prevs2, items: seq<Item>, k: nat)
    requires AllOk(items) && k < |items| && items[k].Text?
    ensures Start(w, items, k) + 6 <= |Encode(w, items)|
    decreases k
  {
    if k > 0 {
      assert items[1..][k - 1] == items[k];
      StartIsWithin(AfterItem(w, items[0]), items[1..], k - 1);
    }
  }

  lemma CutLogIsTidy(bytes: seq<U8>, cut: nat, d: Prevs)
    requires cut <= |bytes| && Tidy(bytes, d) && OwnSlots(d)
    ensures ReadAll(bytes[..cut], d).0 == Records(Decode(bytes[..cut], d))
  {
    assert bytes == bytes[..cut] + bytes[cut..];
    PrefixIsTidy(bytes[..cut], bytes[cut..], d);
    TidyDoesNotDiffer(bytes[..cut], d);
    DecodersAgree(bytes[..cut], d);
  }

  lemma CutLogReads(items: seq<Item>, w: Prevs2, cut: nat)
    requires AllOk(items) && w == [NO_PREV, NO_PREV] && cut <= |Encode(w, items)|
    ensures var file := Encode(w, items)[..cut];
      ReadAll(file, NO_PREVS) == (Records(Decode(file, NO_PREVS)), CutInSomeLength(w, items, cut))
  {
    LogIsTidy(items, w, NO_PREVS);
    CutLogIsTidy(Encode(w, items), cut, NO_PREVS);
    CutLogRaisesExactly(items, w, NO_PREVS, cut);
  }

  lemma WholeLogIsNotCut(items: seq<Item>, w: Prevs2)
    requires AllOk(items)
    ensures !CutInSomeLength(w, items, |Encode(w, items)|)
  {
    forall k: nat | CutInLength(w, items, |Encode(w, items)|, k)
      ensures false
    {
      StartIsWithin(w, items, k);
    }
  }

  lemma WholeLogReads(items: seq<Item>, w: Prevs2)
    requires AllOk(items) && w == [NO_PREV, NO_PREV]
    ensures ReadAll(Encode(w, items), NO_PREVS) == (Records(Meanings(items)), false)
  {
    var bytes := Encode(w, items);
    CutLogReads(items, w, |bytes|);
    assert bytes[..|bytes|] == bytes;
    WholeLogIsNotCut(items, w);
    LogRoundTrip(items, w, NO_PREVS);
  }

  /** From every written log the record reader reconstructs exactly the logged instruction records and
      raises no exception. From every prefix of one it reconstructs the records the decoder does, and
      raises an exception exactly where the length of a text record is cut. */
  lemma DecodersAgreeOnLogs(items: seq<Item>, w: Prevs2, cut: nat)
    requires AllOk(items) && w == [NO_PREV, NO_PREV] && cut <= |Encode(w, items)|
    ensures ReadAll(Encode(w, items), NO_PREVS) == (Records(Meanings(items)), false)
    ensures var file := Encode(w, items)[..cut];
      ReadAll(file, NO_PREVS) == (Records(Decode(file, NO_PREVS)), CutInSomeLength(w, items, cut))
  {
    WholeLogReads(items, w);
    CutLogReads(items, w, cut);
  }

  // ---- a file on which they differ ----

  function Zeros(n: nat): seq<U8> { seq(n, _ => 0) }

  /** A memory record of the unused kind 11, and a keyframe of zeros behind it. */
  function HiddenKeyframe(): seq<U8> { [TAG_MEM, 11, 0, 0, 0, 0] + Zeros(1 + RECORD_SIZE) }

  lemma DecodesKeyframe(bytes: seq<U8>, d: Prevs)
    requires bytes == Zeros(1 + RECORD_SIZE)
    ensures |Records(Decode(bytes, d))| == 1
  {
    assert bytes[0] == TAG_INST;
    var s := StepBody(bytes[0], bytes[1..], d);
    assert s.events == [Executed(DecodeRecord(bytes[1..][..RECORD_SIZE]))] && s.rest == [];
    assert Decode(bytes, d) == s.events + [];
    assert s.events[1..] == [];
    RecordsConcat(s.events, []);
  }

  lemma ReadsNothing(bytes: seq<U8>, d: Prevs)
    requires bytes == Zeros(RECORD_SIZE - 3)
    ensures ReadAll(bytes, d) == ([], false)
  {
    assert bytes[0] == TAG_INST;
    ReadAllTurn(bytes, d);
  }

  /** On this file the decoder gives a record and the record reader gives none. */
  lemma DecodersDiffer()
    ensures |Records(Decode(HiddenKeyframe(), NO_PREVS))| == 1 && ReadAll(HiddenKeyframe(), NO_PREVS) == ([], false)
  {
    var file := HiddenKeyframe();
    var bytes := file[1..];
    assert bytes[0] == 11 && |bytes| == 86;
    UnknownKindStep(bytes, NO_PREVS, 0);
    var s := StepBody(file[0], bytes, NO_PREVS);
    assert s.rest == Zeros(1 + RECORD_SIZE);
    DecodesKeyframe(s.rest, NO_PREVS);
    OneAccess(s.events);
    RecordsConcat(s.events, Decode(s.rest, NO_PREVS));
    assert bytes[9..] == Zeros(RECORD_SIZE - 3);
    assert Skip(bytes[9..], 0) == bytes[9..];
    assert TurnMem(bytes) == Again(bytes[9..]);
    ReadsNothing(bytes[9..], NO_PREVS);
    ReadAllTurn(file, NO_PREVS);
  }
}
