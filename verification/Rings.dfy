/** The two ring buffers, each against the queue it stands for. */
module Rings {
  import opened Machine

  /** `x % size` for an index that is at most one round too far. */
  function Wrap(x: nat, size: nat): (r: nat)
    requires x < size + size
    ensures r < size
  {
    if x < size then x else x - size
  }

  lemma WrapIsMod(x: nat, size: nat)
    requires x < size + size
    ensures x % size == Wrap(x, size)
  {
    if x >= size {
      ModOfRest(x - size, size);
    } else {
      ModOfRest(x, size);
    }
  }

  lemma ModOfRest(r: nat, size: nat)
    requires r < size
    ensures r % size == r && (r + size) % size == r
  {
  }

  /** The queue a ring holds: `len` elements from `start` on, going around the end. */
  function View<T>(mem: seq<T>, start: nat, len: nat): (r: seq<T>)
    requires start < |mem| && len <= |mem|
    ensures |r| == len && forall i :: 0 <= i < len ==> r[i] == mem[Wrap(start + i, |mem|)]
  {
    seq(len, i requires 0 <= i < len => mem[Wrap(start + i, |mem|)])
  }

  lemma PushBackView<T>(mem: seq<T>, start: nat, len: nat, value: T)
    requires start < |mem| && len < |mem|
    ensures View(mem[Wrap(start + len, |mem|) := value], start, len + 1) == View(mem, start, len) + [value]
  {
  }

  lemma PushFrontView<T>(mem: seq<T>, start: nat, len: nat, value: T)
    requires start < |mem| && len < |mem|
    ensures var front := Wrap(start + |mem| - 1, |mem|);
      View(mem[front := value], front, len + 1) == [value] + View(mem, start, len)
      && Wrap(front + len + 1, |mem|) == Wrap(start + len, |mem|)
  {
  }

  lemma PopView<T>(mem: seq<T>, start: nat, len: nat, count: nat)
    requires start < |mem| && count <= len <= |mem|
    ensures var start' := Wrap(start + count, |mem|);
      View(mem, start', len - count) == View(mem, start, len)[count..]
      && Wrap(start' + (len - count), |mem|) == Wrap(start + len, |mem|)
  {
  }

  /** Stepping the front back in an unsigned type of `word` values, as `push_front` does. */
  function StepBack(start: nat, size: nat, word: nat): (r: nat)
    requires 0 < size <= word
    ensures r < size
  {
    (if start == 0 then word - 1 else start - 1) % size
  }

  lemma DividesWord(size: nat, word: nat)
    requires 0 < size <= word
    ensures (word - 1) % size == size - 1 <==> word % size == 0
  {
    var q, r := (word - 1) / size, (word - 1) % size;
    assert word - 1 == size * q + r;
    if r == size - 1 {
      assert word == size * (q + 1) by { assert size * (q + 1) == size * q + size; }
      MultipleMod(q + 1, size, 0);
    } else {
      MultipleMod(q, size, r + 1);
    }
  }

  lemma MultipleMod(q: nat, size: nat, r: nat)
    requires r < size
    ensures (size * q + r) % size == r
    decreases q
  {
    if q > 0 {
      assert size * q + r == (size * (q - 1) + r) + size;
      MultipleMod(q - 1, size, r);
      ModAddsSize(size * (q - 1) + r, size);
    } else {
      assert size * q == 0;
      ModOfRest(r, size);
    }
  }

  /** Stepping back lands on the slot before the front, for every front, exactly when the size divides the
      number of values: otherwise the wrapped -1 is not the last slot. */
  lemma StepBackExact(size: nat, word: nat)
    requires 0 < size <= word
    ensures (forall start: nat :: start < size ==> StepBack(start, size, word) == Wrap(start + size - 1, size))
      <==> word % size == 0
  {
    DividesWord(size, word);
    assert StepBack(0, size, word) == (word - 1) % size;
    assert Wrap(0 + size - 1, size) == size - 1;
    forall start: nat | 0 < start < size ensures StepBack(start, size, word) == Wrap(start + size - 1, size) {
      ModOfRest(start - 1, size);
    }
  }

  /** `FixedFifo`, for the sizes its users have: powers of two that fit the `u16` arithmetic. */
  class FixedFifo<T(0)> {
    var start: nat
    var len: nat
    var end: nat
    const fifo: array<T>

    ghost predicate Valid()
      reads this
    {
      && 0 < fifo.Length <= 0x8000 && 0x1_0000 % fifo.Length == 0
      && start < fifo.Length && len <= fifo.Length && end == Wrap(start + len, fifo.Length)
    }

    ghost function Contents(): seq<T>
      reads this, fifo
      requires Valid()
    {
      View(fifo[..], start, len)
    }

    constructor (size: nat)
      requires 0 < size <= 0x8000 && 0x1_0000 % size == 0
      ensures Valid() && fresh(fifo) && fifo.Length == size && Contents() == []
    {
      start, len, end := 0, 0, 0;
      fifo := new T[size];
    }

    method PushFront(value: T)
      requires Valid() && len < fifo.Length
      modifies this, fifo
      ensures Valid() && Contents() == [value] + old(Contents())
    {
      StepBackExact(fifo.Length, 0x1_0000);
      PushFrontView(fifo[..], start, len, value);
      start := StepBack(start, fifo.Length, 0x1_0000);
      fifo[start] := value;
      len := len + 1;
    }

    method PushBack(value: T)
      requires Valid() && len < fifo.Length
      modifies this, fifo
      ensures Valid() && Contents() == old(Contents()) + [value]
    {
      PushBackView(fifo[..], start, len, value);
      fifo[end] := value;
      WrapIsMod(end + 1, fifo.Length);
      end := (end + 1) % fifo.Length;
      len := len + 1;
    }

    method Front() returns (value: T)
      requires Valid() && len > 0
      ensures value == Contents()[0]
    {
      value := fifo[start];
    }

    method PopFront()
      requires Valid() && len > 0
      modifies this
      ensures Valid() && Contents() == old(Contents())[1..]
    {
      PopView(fifo[..], start, len, 1);
      WrapIsMod(start + 1, fifo.Length);
      start := (start + 1) % fifo.Length;
      len := len - 1;
    }

    method PopFrontMultiple(count: nat)
      requires Valid() && count <= len
      modifies this
      ensures Valid() && Contents() == old(Contents())[count..]
    {
      PopView(fifo[..], start, len, count);
      WrapIsMod(start + count, fifo.Length);
      start := (start + count) % fifo.Length;
      len := len - count;
    }

    method Clear()
      requires Valid()
      modifies this
      ensures Valid() && Contents() == []
    {
      start, len, end := 0, 0, 0;
    }

    method PushBackMultiple(values: seq<T>)
      requires Valid() && len + |values| <= fifo.Length
      modifies this, fifo
      ensures Valid() && Contents() == old(Contents()) + values
    {
      var first := end;
      WrapIsMod(first + |values|, fifo.Length);
      ghost var before, from, had := fifo[..], start, len;
      end := (first + |values|) % fifo.Length;
      len := len + |values|;
      for i := 0 to |values|
        invariant View(fifo[..], from, had + i) == View(before, from, had) + values[..i]
        invariant start == from && len == had + |values| && end == Wrap(first + |values|, fifo.Length)
      {
        PushBackView(fifo[..], from, had + i, values[i]);
        WrapIsMod(first + i, fifo.Length);
        assert Wrap(first + i, fifo.Length) == Wrap(from + had + i, fifo.Length);
        fifo[(first + i) % fifo.Length] := values[i];
        assert values[..i + 1] == values[..i] + [values[i]];
      }
      assert values[..|values|] == values;
    }

    method At(index: nat) returns (value: T)
      requires Valid() && index < len
      ensures value == Contents()[index]
    {
      WrapIsMod(index + start, fifo.Length);
      value := fifo[(index + start) % fifo.Length];
    }
  }

  /** `FastFixedFifo`: the same ring in memory that is mapped twice in a row, so host address `a` and
      `a + SIZE` are the same cell. A `usize` is 32 bits wide on the console. */
  class FastFixedFifo<T(0)> {
    var start: nat
    var len: nat
    var end: nat
    const shm: array<T>

    ghost predicate Valid()
      reads this
    {
      && 0 < shm.Length <= 0x8000_0000 && 0x1_0000_0000 % shm.Length == 0
      && start < shm.Length && len <= shm.Length && end == Wrap(start + len, shm.Length)
    }

    ghost function Contents(): seq<T>
      reads this, shm
      requires Valid()
    {
      View(shm[..], start, len)
    }

    /** The cell behind an element address of the doubled mapping. */
    function Cell(address: nat): (cell: nat)
      requires address < shm.Length + shm.Length
      ensures cell < shm.Length
    {
      Wrap(address, shm.Length)
    }

    constructor (size: nat)
      requires 0 < size <= 0x8000_0000 && 0x1_0000_0000 % size == 0
      ensures Valid() && fresh(shm) && shm.Length == size && Contents() == []
    {
      start, len, end := 0, 0, 0;
      shm := new T[size];
    }

    method PushFront(value: T)
      requires Valid() && len < shm.Length
      modifies this, shm
      ensures Valid() && Contents() == [value] + old(Contents())
    {
      StepBackExact(shm.Length, 0x1_0000_0000);
      PushFrontView(shm[..], start, len, value);
      start := StepBack(start, shm.Length, 0x1_0000_0000);
      shm[Cell(start)] := value;
      len := len + 1;
    }

    method PushBack(value: T)
      requires Valid() && len < shm.Length
      modifies this, shm
      ensures Valid() && Contents() == old(Contents()) + [value]
    {
      PushBackView(shm[..], start, len, value);
      shm[Cell(end)] := value;
      WrapIsMod(end + 1, shm.Length);
      end := (end + 1) % shm.Length;
      len := len + 1;
    }

    method PopFrontMultiple(count: nat)
      requires Valid() && count <= len
      modifies this
      ensures Valid() && Contents() == old(Contents())[count..]
    {
      PopView(shm[..], start, len, count);
      WrapIsMod(start + count, shm.Length);
      start := (start + count) % shm.Length;
      len := len - count;
    }

    method Clear()
      requires Valid()
      modifies this
      ensures Valid() && Contents() == []
    {
      start, len, end := 0, 0, 0;
    }

    /** The front pointer sees the whole queue in one piece, wherever the ring starts. */
    lemma FrontIsContiguous()
      requires Valid()
      ensures forall i :: 0 <= i < len ==> start + i < shm.Length + shm.Length && shm[Cell(start + i)] == Contents()[i]
    {
    }

    /** `push_back_multiple` without the vector copy: no address is wrapped, the mirror does that. */
    method PushBackMultiple(values: seq<T>)
      requires Valid() && len + |values| <= shm.Length
      modifies this, shm
      ensures Valid() && Contents() == old(Contents()) + values
    {
      var first := end;
      WrapIsMod(first + |values|, shm.Length);
      ghost var before, from, had := shm[..], start, len;
      end := (first + |values|) % shm.Length;
      len := len + |values|;
      for i := 0 to |values|
        invariant View(shm[..], from, had + i) == View(before, from, had) + values[..i]
        invariant start == from && len == had + |values| && end == Wrap(first + |values|, shm.Length)
      {
        PushBackView(shm[..], from, had + i, values[i]);
        assert Cell(first + i) == Wrap(from + had + i, shm.Length);
        shm[Cell(first + i)] := values[i];
        assert values[..i + 1] == values[..i] + [values[i]];
      }
      assert values[..|values|] == values;
    }

    method At(index: nat) returns (value: T)
      requires Valid() && index < len
      ensures value == Contents()[index]
    {
      WrapIsMod(index + start, shm.Length);
      value := shm[Cell((index + start) % shm.Length)];
    }

    /** Saving: the length, and as many elements from the front pointer on. */
    method Save() returns (length: nat, elements: seq<T>)
      requires Valid()
      ensures length == len && elements == Contents()
    {
      length, elements := len, [];
      for i := 0 to len
        invariant elements == Contents()[..i]
      {
        elements := elements + [shm[Cell(start + i)]];
      }
    }

    /** Loading: a length over the size is an error and leaves the ring empty; the elements, when the input
        still holds that many, go to the start of the memory. */
    method Load(length: nat, input: seq<T>) returns (ok: bool)
      requires Valid()
      modifies this, shm
      ensures Valid() && ok == (length <= shm.Length && length <= |input|)
      ensures ok ==> Contents() == input[..length] && start == 0
      ensures length > shm.Length ==> Contents() == []
    {
      start, len, end := 0, 0, 0;
      if length > shm.Length {
        return false;
      }
      ok := length <= |input|;
      if ok {
        for i := 0 to length
          invariant start == len == end == 0
          invariant shm[..i] == input[..i]
        {
          shm[Cell(i)] := input[i];
        }
      }
      len := length;
      WrapIsMod(length, shm.Length);
      end := length % shm.Length;
    }
  }

  /** What one ring saves, any ring of at least that size loads as the same queue, now starting at 0. */
  method SaveAndLoad<T(0)>(from: FastFixedFifo<T>, to: FastFixedFifo<T>) returns (ok: bool)
    requires from.Valid() && to.Valid() && from != to && from.shm != to.shm
    modifies to, to.shm
    ensures to.Valid() && ok == (from.len <= to.shm.Length)
    ensures ok ==> to.Contents() == from.Contents() && to.start == 0
  {
    var length, elements := from.Save();
    ok := to.Load(length, elements);
  }
}
