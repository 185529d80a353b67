/** Repeating a step. */
module Repetition {
  function Repeat<S>(step: (S, nat) -> S, s: S, n: nat): S { if n == 0 then s else step(Repeat(step, s, n - 1), n - 1) }

  lemma EightTimes<S>(step: (S, nat) -> S, s: S)
    ensures Repeat(step, s, 8) == step(step(step(step(step(step(step(step(s, 0), 1), 2), 3), 4), 5), 6), 7)
  {
    assert Repeat(step, s, 2) == step(step(s, 0), 1);
    assert Repeat(step, s, 4) == step(step(Repeat(step, s, 2), 2), 3);
    assert Repeat(step, s, 6) == step(step(Repeat(step, s, 4), 4), 5);
  }
}

/** The header checksum: a CRC-16 that adds a byte with eight table words instead of feeding back each bit. */
module Crc {
  import opened Repetition

  const POLY: bv32 := 0xA001

  const TABLE: seq<bv32> := [0xC0C1, 0xC181, 0xC301, 0xC601, 0xCC01, 0xD801, 0xF001, 0xA001]

  /** One bit of the reflected CRC with polynomial 0xA001. */
  function BitStep(crc: bv32): bv32 { (crc >> 1) ^ (if crc & 1 != 0 then POLY else 0) }

  function BitSteps(crc: bv32, n: nat): bv32 { if n == 0 then crc else BitStep(BitSteps(crc, n - 1)) }

  /** The checksum of the first `n` bytes, a bit at a time. */
  function BitCrc(seed: bv32, bytes: seq<bv8>, n: nat): bv32
    requires n <= |bytes|
  {
    if n == 0 then seed else BitSteps(BitCrc(seed, bytes, n - 1) ^ (bytes[n - 1] as bv32), 8)
  }

  /** The table word of round `j`, set in where the shifts still to come leave it. */
  function Word(j: nat): bv32 { if j < 8 then TABLE[j] << (7 - j) else 0 }

  function WordStep(crc: bv32, word: bv32): bv32 { (crc >> 1) ^ (if crc & 1 != 0 then word else 0) }

  function TableStep(crc: bv32, j: nat): bv32 { WordStep(crc, Word(j)) }

  lemma Words()
    ensures Word(0) == 0xC0C1 << 7 && Word(1) == 0xC181 << 6 && Word(2) == 0xC301 << 5 && Word(3) == 0xC601 << 4
    ensures Word(4) == 0xCC01 << 3 && Word(5) == 0xD801 << 2 && Word(6) == 0xF001 << 1 && Word(7) == 0xA001
  {
  }

  function EightWords(crc: bv32): bv32 {
    WordStep(WordStep(WordStep(WordStep(WordStep(WordStep(WordStep(WordStep(crc,
      0xC0C1 << 7), 0xC181 << 6), 0xC301 << 5), 0xC601 << 4), 0xCC01 << 3), 0xD801 << 2), 0xF001 << 1), 0xA001)
  }

  lemma WordsUnroll(crc: bv32)
    ensures Repeat(TableStep, crc, 8) == EightWords(crc)
  {
    EightTimes(TableStep, crc);
    Words();
  }

  function EightBits(crc: bv32): bv32 {
    BitStep(BitStep(BitStep(BitStep(BitStep(BitStep(BitStep(BitStep(crc))))))))
  }

  lemma {:induction false} BitStepsRepeat(step: (bv32, nat) -> bv32, crc: bv32, n: nat)
    requires forall c, j :: step(c, j) == BitStep(c)
    ensures BitSteps(crc, n) == Repeat(step, crc, n)
    decreases n
  {
    if n > 0 {
      BitStepsRepeat(step, crc, n - 1);
    }
  }

  lemma BitsUnroll(crc: bv32)
    ensures BitSteps(crc, 8) == EightBits(crc)
  {
    var step := (c: bv32, j: nat) => BitStep(c);
    BitStepsRepeat(step, crc, 8);
    EightTimes(step, crc);
  }

  // The cases for single bits keep the search for a difference short.
  lemma OddAgree(crc: bv32)
    requires crc & 1 != 0
    ensures EightWords(crc) == EightBits(crc)
  {
    if crc & 2 != 0 {
      if crc & 4 != 0 {
      } else {
      }
    } else {
      if crc & 4 != 0 {
      } else {
      }
    }
  }

  lemma EvenAgree(crc: bv32)
    requires crc & 1 == 0
    ensures EightWords(crc) == EightBits(crc)
  {
    if crc & 2 != 0 {
      if crc & 4 != 0 {
      } else {
      }
    } else {
      if crc & 4 != 0 {
      } else {
      }
    }
  }

  lemma EightAgree(crc: bv32)
    ensures EightWords(crc) == EightBits(crc)
  {
    if crc & 1 != 0 {
      OddAgree(crc);
    } else {
      EvenAgree(crc);
    }
  }

  /** Eight table rounds are eight bit rounds, for every 32-bit value. */
  lemma TableIsBitwise(crc: bv32)
    ensures Repeat(TableStep, crc, 8) == BitSteps(crc, 8)
  {
    WordsUnroll(crc);
    BitsUnroll(crc);
    EightAgree(crc);
  }

  /** The published check value: the checksum of the digits "123456789" from 0xFFFF is 0x4B37. */
  const DIGITS: seq<bv8> := [0x31, 0x32, 0x33, 0x34, 0x35, 0x36, 0x37, 0x38, 0x39]

  lemma NextByte(seed: bv32, n: nat, before: bv32, after: bv32)
    requires n < |DIGITS| && BitCrc(seed, DIGITS, n) == before && EightBits(before ^ (DIGITS[n] as bv32)) == after
    ensures BitCrc(seed, DIGITS, n + 1) == after
  {
    BitsUnroll(before ^ (DIGITS[n] as bv32));
  }

  lemma FirstDigits(n: nat)
    requires n == 0
    ensures BitCrc(0xFFFF, DIGITS, n + 3) == 0x7A75
  {
    NextByte(0xFFFF, n, 0xFFFF, 0x947E);
    NextByte(0xFFFF, n + 1, 0x947E, 0xF595);
    NextByte(0xFFFF, n + 2, 0xF595, 0x7A75);
  }

  lemma MiddleDigits(n: nat)
    requires n == 3
    ensures BitCrc(0xFFFF, DIGITS, n + 3) == 0x32E4
  {
    FirstDigits(0);
    NextByte(0xFFFF, n, 0x7A75, 0x30BA);
    NextByte(0xFFFF, n + 1, 0x30BA, 0xA471);
    NextByte(0xFFFF, n + 2, 0xA471, 0x32E4);
  }

  lemma CheckValue(n: nat)
    requires n == |DIGITS|
    ensures BitCrc(0xFFFF, DIGITS, n) == 0x4B37
  {
    MiddleDigits(3);
    NextByte(0xFFFF, n - 3, 0x32E4, 0x9D73);
    NextByte(0xFFFF, n - 2, 0x9D73, 0x37DD);
    NextByte(0xFFFF, n - 1, 0x37DD, 0x4B37);
  }

  lemma EightFit(crc: bv32)
    requires crc <= 0xFFFF
    ensures EightBits(crc) <= 0xFFFF
  {
  }

  lemma XorFits(crc: bv32, b: bv8)
    requires crc <= 0xFFFF
    ensures crc ^ (b as bv32) <= 0xFFFF
  {
  }

  lemma ByteFits(crc: bv32, b: bv8)
    requires crc <= 0xFFFF
    ensures BitSteps(crc ^ (b as bv32), 8) <= 0xFFFF
  {
    XorFits(crc, b);
    EightFit(crc ^ (b as bv32));
    BitsUnroll(crc ^ (b as bv32));
  }

  /** From a 16-bit seed the running value has 16 bits after every byte. */
  lemma {:induction false} RunningValueFits(seed: bv32, bytes: seq<bv8>, n: nat)
    requires n <= |bytes| && seed <= 0xFFFF
    ensures BitCrc(seed, bytes, n) <= 0xFFFF
    decreases n
  {
    if n > 0 {
      RunningValueFits(seed, bytes, n - 1);
      ByteFits(BitCrc(seed, bytes, n - 1), bytes[n - 1]);
    }
  }

  method TableRound(crc0: bv32, j: nat) returns (crc: bv32)
    requires j < |TABLE|
    ensures crc == TableStep(crc0, j)
  {
    crc := (crc0 >> 1) ^ (if crc0 & 1 != 0 then TABLE[j] << (7 - j) else 0);
  }

  method AddByte(crc0: bv32, b: bv8) returns (crc: bv32)
    ensures crc == BitSteps(crc0 ^ (b as bv32), 8)
  {
    crc := crc0 ^ (b as bv32);
    ghost var start := crc;
    var j := 0;
    while j < |TABLE|
      invariant 0 <= j <= 8 && crc == Repeat(TableStep, start, j)
    {
      crc := TableRound(crc, j);
      j := j + 1;
    }
    TableIsBitwise(start);
  }

  /** `crc16` over a range of the buffer, with the final cut to 16 bits. */
  method Crc16(seed: bv32, buf: seq<bv8>, start: nat, size: nat) returns (crc: bv16)
    requires start + size <= |buf|
    ensures crc == (BitCrc(seed, buf[start..start + size], size) & 0xFFFF) as bv16
  {
    var running, i := seed, start;
    ghost var bytes := buf[start..start + size];
    while i < start + size
      invariant start <= i <= start + size && running == BitCrc(seed, bytes, i - start)
    {
      assert bytes[i - start] == buf[i];
      running := AddByte(running, buf[i]);
      i := i + 1;
    }
    crc := (running & 0xFFFF) as bv16;
  }
}
