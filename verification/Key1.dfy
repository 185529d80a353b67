/** The KEY1 block cipher: sixteen Feistel rounds over a schedule of eighteen words and four tables. */
module Key1 {
  import opened Feistel
  import opened Machine

  const KEY_WORDS: nat := 0x412

  /** A 32-bit word by its bytes, lowest first. */
  datatype Word = Word(b0: bv8, b1: bv8, b2: bv8, b3: bv8)

  function Value(w: Word): U32 { w.b0 as int + 0x100 * w.b1 as int + 0x1_0000 * w.b2 as int + 0x100_0000 * w.b3 as int }

  function OfValue(v: U32): Word {
    var b := Le32(v);
    Word(b[0] as bv8, b[1] as bv8, b[2] as bv8, b[3] as bv8)
  }

  function Xor(a: Word, b: Word): Word { Word(a.b0 ^ b.b0, a.b1 ^ b.b1, a.b2 ^ b.b2, a.b3 ^ b.b3) }

  function Add(a: Word, b: Word): Word { OfValue(WrappingAdd(Value(a), Value(b))) }

  type KeyBuf = k: seq<Word> | |k| == KEY_WORDS witness seq(KEY_WORDS, _ => Word(0, 0, 0, 0))

  /** The entry of table `t` at a byte. */
  function Table(key: KeyBuf, t: nat, b: bv8): Word
    requires t < 4
  {
    key[0x12 + 0x100 * t + b as int]
  }

  /** What a round mixes into the other half: the four tables at the bytes of the word, highest first. */
  function MixWith(add: (Word, Word) -> Word, xor: (Word, Word) -> Word, key: KeyBuf, z: Word): Word {
    add(xor(add(Table(key, 0, z.b3), Table(key, 1, z.b2)), Table(key, 2, z.b1)), Table(key, 3, z.b0))
  }

  function Mix(key: KeyBuf, z: Word): Word { MixWith(Add, Xor, key, z) }

  function CipherOf(key: KeyBuf): Cipher<Word> { Cipher(Xor, (z: Word) => Mix(key, z)) }

  function Forward(key: KeyBuf): (schedule: seq<Word>)
    ensures |schedule| == 18 && forall i :: 0 <= i < 18 ==> schedule[i] == key[i]
  {
    key[..18]
  }

  lemma WrapIsMod32(x: U32, y: U32)
    ensures WrappingAdd(x, y) == (x + y) % 0x1_0000_0000
  {
  }

  /** Addition is that of 32-bit numbers, whose bytes are from the lowest up. */
  lemma AddIsWrapping(a: Word, b: Word, x: U32, y: U32)
    requires x == Value(a) && y == Value(b)
    ensures Add(a, b) == OfValue((x + y) % 0x1_0000_0000)
  {
    WrapIsMod32(x, y);
  }

  lemma BytesOfValue(v: U32)
    ensures OfValue(v) == Word((v % 0x100) as bv8, (v / 0x100 % 0x100) as bv8, (v / 0x1_0000 % 0x100) as bv8,
                               (v / 0x100_0000) as bv8)
  {
  }

  lemma TablesAre(key: KeyBuf, b: bv8)
    ensures Table(key, 0, b) == key[0x12 + b as int] && Table(key, 1, b) == key[0x112 + b as int]
    ensures Table(key, 2, b) == key[0x212 + b as int] && Table(key, 3, b) == key[0x312 + b as int]
  {
  }

  /** The mixing of a word: the entries at its bytes, from the highest down, of the four tables behind the schedule,
      added, mixed in by exclusive or, and added. */
  lemma MixIs(key: KeyBuf, z: Word, t0: Word, t1: Word, t2: Word, t3: Word)
    requires t0 == key[0x12 + z.b3 as int] && t1 == key[0x112 + z.b2 as int]
    requires t2 == key[0x212 + z.b1 as int] && t3 == key[0x312 + z.b0 as int]
    ensures Mix(key, z) == Add(Xor(Add(t0, t1), t2), t3)
  {
    TablesAre(key, z.b3);
    TablesAre(key, z.b2);
    TablesAre(key, z.b1);
    TablesAre(key, z.b0);
    MixOf(Add, Xor, key, z, t0, t1, t2, t3);
  }

  lemma MixOf(add: (Word, Word) -> Word, xor: (Word, Word) -> Word, key: KeyBuf, z: Word, t0: Word, t1: Word, t2: Word,
              t3: Word)
    requires t0 == Table(key, 0, z.b3) && t1 == Table(key, 1, z.b2)
    requires t2 == Table(key, 2, z.b1) && t3 == Table(key, 3, z.b0)
    ensures MixWith(add, xor, key, z) == add(xor(add(t0, t1), t2), t3)
  {
  }

  /** An encryption round: the second half is the first, by exclusive or with the round's word, and the first is the
      second by exclusive or with the mixing of that. */
  lemma EncryptionRound(key: KeyBuf, start: Halves<Word>, n: nat)
    requires n < 16
    ensures var before := Rounds(CipherOf(key), Forward(key), start, n);
      var after := Rounds(CipherOf(key), Forward(key), start, n + 1);
      after.y == Xor(key[n], before.x) && after.x == Xor(Mix(key, after.y), before.y)
  {
  }

  /** Sixteen rounds, from the halves in reverse order, and the last two words of the schedule. */
  lemma EncryptionIs(key: KeyBuf, block: Block<Word>)
    ensures var h := Rounds(CipherOf(key), Forward(key), Halves(block.second, block.first), 16);
      EncryptBlock(key, block) == Block(Xor(h.x, key[0x10]), Xor(h.y, key[0x11]))
  {
  }

  lemma XorCommutes(a: Word, b: Word)
    ensures Xor(a, b) == Xor(b, a)
  {
  }

  lemma XorCancels(a: Word, b: Word)
    ensures Xor(Xor(a, b), b) == a
  {
  }

  lemma ByteTelescopes(a: bv8, b: bv8, w: bv8)
    ensures a ^ ((a ^ b) ^ w) == b ^ w
  {
  }

  lemma XorTelescopes(a: Word, b: Word, w: Word)
    ensures Xor(a, Xor(Xor(a, b), w)) == Xor(b, w)
  {
    ByteTelescopes(a.b0, b.b0, w.b0);
    ByteTelescopes(a.b1, b.b1, w.b1);
    ByteTelescopes(a.b2, b.b2, w.b2);
    ByteTelescopes(a.b3, b.b3, w.b3);
  }

  lemma CipherLawful(key: KeyBuf)
    ensures Lawful(CipherOf(key))
  {
    forall a, b, w ensures Law(CipherOf(key), a, b, w) {
      XorCommutes(a, b);
      XorCancels(a, b);
      XorTelescopes(a, b, w);
    }
  }

  // ---- the loop ----

  method MixWord(add: (Word, Word) -> Word, xor: (Word, Word) -> Word, key: KeyBuf, z: Word) returns (x: Word)
    ensures x == MixWith(add, xor, key, z)
  {
    x := Table(key, 0, z.b3);
    x := add(x, Table(key, 1, z.b2));
    x := xor(x, Table(key, 2, z.b1));
    x := add(x, Table(key, 3, z.b0));
  }

  /** `crypt`: the rounds in the order of `order`, then the two end words. */
  method Crypt(key: KeyBuf, data: array<Word>, order: seq<nat>, xEnd: nat, yEnd: nat, ghost schedule: seq<Word>)
    requires data.Length == 2 && |order| == 16 && |schedule| == 18
    requires forall k :: 0 <= k < 16 ==> order[k] < KEY_WORDS && schedule[k] == key[order[k]]
    requires xEnd < KEY_WORDS && yEnd < KEY_WORDS && schedule[16] == key[xEnd] && schedule[17] == key[yEnd]
    modifies data
    ensures Block(data[0], data[1]) == Apply(CipherOf(key), schedule, Block(old(data[0]), old(data[1])))
  {
    var y := data[0];
    var x := data[1];
    ghost var c, start := CipherOf(key), Halves(x, y);
    for k := 0 to |order|
      invariant Halves(x, y) == Rounds(c, schedule, start, k)
      invariant data[0] == old(data[0]) && data[1] == old(data[1])
    {
      var z := Xor(key[order[k]], x);
      x := MixWord(Add, Xor, key, z);
      x := Xor(x, y);
      y := z;
    }
    data[0] := Xor(x, key[xEnd]);
    data[1] := Xor(y, key[yEnd]);
  }

  function EncryptBlock(key: KeyBuf, block: Block<Word>): Block<Word> { Apply(CipherOf(key), Forward(key), block) }

  function DecryptBlock(key: KeyBuf, block: Block<Word>): Block<Word> {
    Apply(CipherOf(key), Reversed(Forward(key)), block)
  }

  method Encrypt(key: KeyBuf, data: array<Word>)
    requires data.Length == 2
    modifies data
    ensures Block(data[0], data[1]) == EncryptBlock(key, Block(old(data[0]), old(data[1])))
  {
    Crypt(key, data, seq(16, i => i), 0x10, 0x11, Forward(key));
  }

  /** The order `(0x02..0x12).rev()`, then words 1 and 0. */
  method Decrypt(key: KeyBuf, data: array<Word>)
    requires data.Length == 2
    modifies data
    ensures Block(data[0], data[1]) == DecryptBlock(key, Block(old(data[0]), old(data[1])))
  {
    Crypt(key, data, seq(16, i requires 0 <= i < 16 => 17 - i), 1, 0, Reversed(Forward(key)));
  }

  /** Decryption undoes encryption, for every key buffer and block. */
  lemma DecryptUndoesEncrypt(key: KeyBuf, block: Block<Word>)
    ensures DecryptBlock(key, EncryptBlock(key, block)) == block
  {
    CipherLawful(key);
    ReversedUndoes(CipherOf(key), Forward(key), block);
  }

  /** Encryption undoes decryption, for every key buffer and block. */
  lemma EncryptUndoesDecrypt(key: KeyBuf, block: Block<Word>)
    ensures EncryptBlock(key, DecryptBlock(key, block)) == block
  {
    CipherLawful(key);
    UndoesReversed(CipherOf(key), Forward(key), block);
  }
}
