/** Feistel rounds over any words with an exclusive or, and any mixing function. */
module Feistel {
  datatype Cipher<!W> = Cipher(xor: (W, W) -> W, mix: W -> W)

  datatype Block<W> = Block(first: W, second: W)

  /** The two halves between rounds. */
  datatype Halves<W> = Halves(x: W, y: W)

  /** All that is asked of the exclusive or. */
  predicate Law<W(==)>(c: Cipher<W>, a: W, b: W, w: W) {
    c.xor(a, b) == c.xor(b, a) && c.xor(c.xor(a, b), b) == a && c.xor(a, c.xor(c.xor(a, b), w)) == c.xor(b, w)
  }

  ghost predicate Lawful<W(!new)>(c: Cipher<W>) { forall a, b, w :: Law(c, a, b, w) }

  function Round<W>(c: Cipher<W>, word: W, h: Halves<W>): Halves<W> {
    var z := c.xor(word, h.x);
    Halves(c.xor(c.mix(z), h.y), z)
  }

  /** The rounds over the first `n` words of a schedule. */
  function Rounds<W>(c: Cipher<W>, schedule: seq<W>, h: Halves<W>, n: nat): Halves<W>
    requires n <= |schedule|
    decreases n
  {
    if n == 0 then h else Round(c, schedule[n - 1], Rounds(c, schedule, h, n - 1))
  }

  /** Rounds over all words but the last two, and those over the crossed halves. */
  function Apply<W>(c: Cipher<W>, schedule: seq<W>, block: Block<W>): Block<W>
    requires |schedule| >= 2
  {
    var n := |schedule| - 2;
    var h := Rounds(c, schedule, Halves(block.second, block.first), n);
    Block(c.xor(h.x, schedule[n]), c.xor(h.y, schedule[n + 1]))
  }

  function Reversed<W>(s: seq<W>): (r: seq<W>)
    ensures |r| == |s| && forall i :: 0 <= i < |s| ==> r[i] == s[|s| - 1 - i]
  {
    seq(|s|, i requires 0 <= i < |s| => s[|s| - 1 - i])
  }

  /** The halves of a run before round `n`, crossed and whitened with the words on either side: what the
      backward run holds when it has come to that point. */
  function Crossed<W>(c: Cipher<W>, schedule: seq<W>, h: Halves<W>, n: nat): Halves<W>
    requires n + 1 < |schedule|
  {
    var p := Rounds(c, schedule, h, n);
    Halves(c.xor(p.y, schedule[n + 1]), c.xor(p.x, schedule[n]))
  }

  /** One round backwards: from the crossed halves before round `n + 1` to those before round `n`. */
  lemma BackwardRound<W(!new)>(c: Cipher<W>, schedule: seq<W>, h: Halves<W>, n: nat)
    requires Lawful(c) && n + 2 < |schedule|
    ensures Round(c, schedule[n + 2], Crossed(c, schedule, h, n + 1)) == Crossed(c, schedule, h, n)
  {
    var p := Rounds(c, schedule, h, n);
    var z, last := c.xor(schedule[n], p.x), schedule[n + 2];
    var m := c.mix(z);
    assert Rounds(c, schedule, h, n + 1) == Halves(c.xor(m, p.y), z);
    assert Law(c, z, last, last);
    assert Law(c, last, c.xor(z, last), last);
    assert Law(c, m, p.y, schedule[n + 1]);
    assert Law(c, schedule[n], p.x, last);
  }

  /** After `k` backward rounds the halves are the crossed ones `k` rounds earlier. */
  lemma {:induction false} BackwardRounds<W(!new)>(c: Cipher<W>, schedule: seq<W>, h: Halves<W>, k: nat)
    requires Lawful(c) && |schedule| >= k + 2
    ensures Rounds(c, Reversed(schedule), Crossed(c, schedule, h, |schedule| - 2), k)
         == Crossed(c, schedule, h, |schedule| - 2 - k)
    decreases k
  {
    if k > 0 {
      BackwardRounds(c, schedule, h, k - 1);
      BackwardRound(c, schedule, h, |schedule| - 2 - k);
    }
  }

  /** The reversed schedule undoes the schedule, for every number of rounds. */
  lemma ReversedUndoes<W(!new)>(c: Cipher<W>, schedule: seq<W>, block: Block<W>)
    requires Lawful(c) && |schedule| >= 2
    ensures Apply(c, Reversed(schedule), Apply(c, schedule, block)) == block
  {
    var n, h := |schedule| - 2, Halves(block.second, block.first);
    var p := Rounds(c, schedule, h, n);
    assert Crossed(c, schedule, h, n) == Halves(c.xor(p.y, schedule[n + 1]), c.xor(p.x, schedule[n]));
    BackwardRounds(c, schedule, h, n);
    assert Law(c, block.first, schedule[1], block.first);
    assert Law(c, block.second, schedule[0], block.second);
  }

  /** And the schedule undoes the reversed schedule. */
  lemma UndoesReversed<W(!new)>(c: Cipher<W>, schedule: seq<W>, block: Block<W>)
    requires Lawful(c) && |schedule| >= 2
    ensures Apply(c, schedule, Apply(c, Reversed(schedule), block)) == block
  {
    ReversedUndoes(c, Reversed(schedule), block);
    assert Reversed(Reversed(schedule)) == schedule;
  }
}
