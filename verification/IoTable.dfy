/**
 The register dispatch compiler: a sorted list of 1, 2 or 4 byte register entries becomes one table for
 each access width. A cell of a table is compiled to an expression over the registers it overlaps, or to
 a list of masked register writes; both are evaluated here.
 */
module IoTable {
  import opened Machine

  datatype Entry = Entry(offset: nat, size: nat)
  {
    function End(): nat { offset + size }
  }

  /** A cell of a table and the indices of the entries compiled into it. */
  datatype Cell = Cell(offset: nat, entries: seq<nat>)

  predicate Width(w: nat) { w == 1 || w == 2 || w == 4 }

  /** What the compiler checks of a list while it reads it: sizes and strictly ascending offsets. */
  ghost predicate Ascending(entries: seq<Entry>) {
    && entries != []
    && (forall i :: 0 <= i < |entries| ==> Width(entries[i].size))
    && (forall i, j :: 0 <= i < j < |entries| ==> entries[i].offset < entries[j].offset)
  }

  /** Entries in ascending order that do not overlap. */
  ghost predicate Sorted(entries: seq<Entry>) {
    && entries != []
    && (forall i :: 0 <= i < |entries| ==> Width(entries[i].size))
    && (forall i, j :: 0 <= i < j < |entries| ==> entries[i].End() <= entries[j].offset)
  }

  /** Entries that are also naturally aligned. */
  ghost predicate Legal(entries: seq<Entry>) {
    Sorted(entries) && forall i :: 0 <= i < |entries| ==> Aligned(entries[i].offset, entries[i].size)
  }

  function AlignDown(x: nat, w: nat): (r: nat)
    requires Width(w)
    ensures r <= x < r + w && (w == 2 ==> r % 2 == 0) && (w == 4 ==> r % 4 == 0)
  {
    if w == 1 then x else if w == 2 then x / 2 * 2 else x / 4 * 4
  }

  function AlignUp(x: nat, w: nat): (r: nat)
    requires Width(w)
    ensures x <= r < x + w && (w == 2 ==> r % 2 == 0) && (w == 4 ==> r % 4 == 0)
  {
    if w == 1 then x else if w == 2 then (x + 1) / 2 * 2 else (x + 3) / 4 * 4
  }

  predicate Aligned(x: nat, w: nat) { Width(w) && AlignDown(x, w) == x }

  predicate Overlaps(e: Entry, addr: nat, w: nat) {
    (addr <= e.offset < addr + w) || (e.offset <= addr < e.End())
  }

  /** The indices below `n` of the entries that share a byte with the cell, in order. */
  function Overlapping(entries: seq<Entry>, addr: nat, w: nat, n: nat): seq<nat>
    requires n <= |entries|
  {
    if n == 0 then [] else
    Overlapping(entries, addr, w, n - 1) + if Overlaps(entries[n - 1], addr, w) then [n - 1] else []
  }

  function MinAddr(entries: seq<Entry>): nat requires entries != [] { entries[0].offset }

  function MaxAddr(entries: seq<Entry>): nat requires entries != [] { entries[|entries| - 1].End() }

  ghost predicate NoneOverlap(entries: seq<Entry>, addr: nat, w: nat, m: nat, n: nat)
    requires m <= n <= |entries|
  {
    forall k :: m <= k < n ==> !Overlaps(entries[k], addr, w)
  }

  lemma {:induction false} NothingOverlaps(entries: seq<Entry>, addr: nat, w: nat, m: nat, n: nat)
    requires m <= n <= |entries|
    requires NoneOverlap(entries, addr, w, m, n)
    ensures Overlapping(entries, addr, w, n) == Overlapping(entries, addr, w, m)
    decreases n
  {
    if m < n {
      NothingOverlaps(entries, addr, w, m, n - 1);
    }
  }

  // Where an overlapping entry starts inside the cell.
  function StartIn(e: Entry, addr: nat): nat { if e.offset < addr then addr else e.offset }

  // Overlapping entries start at different bytes of the cell, so there are no more of them than bytes.
  lemma {:induction false} FewOverlap(entries: seq<Entry>, addr: nat, w: nat, n: nat)
    requires Sorted(entries) && Width(w) && n <= |entries|
    ensures var r := Overlapping(entries, addr, w, n);
      |r| <= w && (r != [] ==> LastStart(entries, addr, w, n, r[|r| - 1], |r|))
  {
    if n > 0 {
      FewOverlap(entries, addr, w, n - 1);
      var r := Overlapping(entries, addr, w, n - 1);
      if Overlaps(entries[n - 1], addr, w) && r != [] {
        assert entries[r[|r| - 1]].End() <= entries[n - 1].offset;
      }
    }
  }

  /** Where the last of `count` overlapping entries starts. */
  ghost predicate LastStart(entries: seq<Entry>, addr: nat, w: nat, n: nat, last: nat, count: nat)
    requires n <= |entries|
  {
    last < n && Overlaps(entries[last], addr, w) && addr + count <= StartIn(entries[last], addr) + 1
  }

  /** What an index list contains. */
  lemma {:induction false} OverlappingMembers(entries: seq<Entry>, addr: nat, w: nat, n: nat)
    requires n <= |entries|
    ensures var r := Overlapping(entries, addr, w, n);
      && Indices(r, n)
      && (forall k :: 0 <= k < n ==> (k in r <==> Overlaps(entries[k], addr, w)))
      && (forall i, j :: 0 <= i < j < |r| ==> r[i] < r[j])
  {
    if n > 0 {
      OverlappingMembers(entries, addr, w, n - 1);
    }
  }

  ghost predicate Indices(r: seq<nat>, n: nat) { forall i :: 0 <= i < |r| ==> r[i] < n }

  /** The cells from `addr` up to `end`. */
  function Cells(entries: seq<Entry>, w: nat, addr: nat, end: nat): seq<Cell>
    requires Width(w)
    decreases if addr < end then end - addr else 0
  {
    if addr >= end then [] else
    [Cell(addr, Overlapping(entries, addr, w, |entries|))] + Cells(entries, w, addr + w, end)
  }

  function Table(entries: seq<Entry>, w: nat): seq<Cell>
    requires entries != [] && Width(w)
  {
    Cells(entries, w, AlignDown(MinAddr(entries), w), AlignUp(MaxAddr(entries), w))
  }

  // ---- the scan ----

  /** The indices from `from` on and below `n` of the entries that share a byte with the cell. */
  function Scanned(entries: seq<Entry>, addr: nat, w: nat, from: nat, n: nat): (r: seq<nat>)
    requires from <= n <= |entries|
    ensures forall k :: 0 <= k < |r| ==> from <= r[k] < n
    decreases n
  {
    if n == from then [] else
    Scanned(entries, addr, w, from, n - 1) + if Overlaps(entries[n - 1], addr, w) then [n - 1] else []
  }

  /** The scan for the next cell starts at the last entry found. */
  function Resume(within: seq<nat>, from: nat): nat { if within == [] then from else within[|within| - 1] }

  /** The cells as they are scanned, `None` when one has more entries than bytes, which an assertion rejects. */
  function Scan(entries: seq<Entry>, w: nat, addr: nat, end: nat, from: nat): Option<seq<Cell>>
    requires Width(w) && from < |entries|
    decreases if addr < end then end - addr else 0
  {
    if addr >= end then Some([]) else
    var within := Scanned(entries, addr, w, from, |entries|);
    if |within| > w then None else
    match Scan(entries, w, addr + w, end, Resume(within, from))
    case None => None
    case Some(rest) => Some([Cell(addr, within)] + rest)
  }

  function ScanAll(entries: seq<Entry>, w: nat): Option<seq<Cell>>
    requires entries != [] && Width(w)
  {
    Scan(entries, w, AlignDown(MinAddr(entries), w), AlignUp(MaxAddr(entries), w), 0)
  }

  /** `assemble_lut_entries`, on every list that its caller accepts. */
  method AssembleLutEntries(entries: seq<Entry>, w: nat) returns (cells: Option<seq<Cell>>)
    requires Ascending(entries) && Width(w)
    ensures cells == ScanAll(entries, w)
  {
    var addr, entryIndex: nat := AlignDown(MinAddr(entries), w), 0;
    var end := AlignUp(MaxAddr(entries), w);
    var done := [];
    PrependNone(ScanAll(entries, w));
    while addr < end
      invariant entryIndex < |entries|
      invariant ScanAll(entries, w) == Prepended(done, Scan(entries, w, addr, end, entryIndex))
      decreases if addr < end then end - addr else 0
    {
      var within := ScanCell(entries, w, addr, entryIndex);
      ScanStep(entries, w, addr, end, entryIndex, done);
      if |within| > w {
        return None;
      }
      done := done + [Cell(addr, within)];
      addr, entryIndex := addr + w, Resume(within, entryIndex);
    }
    assert done + [] == done;
    cells := Some(done);
  }

  lemma PrependNone(rest: Option<seq<Cell>>)
    ensures Prepended([], rest) == rest
  {
    if rest.Some? {
      assert [] + rest.value == rest.value;
    }
  }

  lemma ScanStep(entries: seq<Entry>, w: nat, addr: nat, end: nat, from: nat, done: seq<Cell>)
    requires Width(w) && from < |entries| && addr < end
    ensures var within := Scanned(entries, addr, w, from, |entries|);
      Prepended(done, Scan(entries, w, addr, end, from))
      == if |within| > w then None
         else Prepended(done + [Cell(addr, within)], Scan(entries, w, addr + w, end, Resume(within, from)))
  {
    var within := Scanned(entries, addr, w, from, |entries|);
    PrependOne(done, Cell(addr, within), Scan(entries, w, addr + w, end, Resume(within, from)));
  }

  function Prepended(done: seq<Cell>, rest: Option<seq<Cell>>): Option<seq<Cell>> {
    match rest { case None => None case Some(cells) => Some(done + cells) }
  }

  lemma PrependOne(done: seq<Cell>, cell: Cell, rest: Option<seq<Cell>>)
    ensures Prepended(done, Prepended([cell], rest)) == Prepended(done + [cell], rest)
  {
    if rest.Some? {
      assert done + ([cell] + rest.value) == done + [cell] + rest.value;
    }
  }

  lemma {:induction false} NothingScanned(entries: seq<Entry>, addr: nat, w: nat, from: nat, m: nat, n: nat)
    requires from <= m <= n <= |entries| && NoneOverlap(entries, addr, w, m, n)
    ensures Scanned(entries, addr, w, from, n) == Scanned(entries, addr, w, from, m)
    decreases n
  {
    if n > m {
      NothingScanned(entries, addr, w, from, m, n - 1);
    }
  }

  lemma BeyondCell(entries: seq<Entry>, i: nat, addr: nat, w: nat)
    requires Ascending(entries) && i < |entries| && addr + w <= entries[i].offset && w > 0
    ensures NoneOverlap(entries, addr, w, i, |entries|)
  {
    forall k | i <= k < |entries|
      ensures !Overlaps(entries[k], addr, w)
    {
      assert i < k ==> entries[i].offset < entries[k].offset;
    }
  }

  /** The inner loop, which stops at the first entry past the cell. */
  method ScanCell(entries: seq<Entry>, w: nat, addr: nat, from: nat) returns (within: seq<nat>)
    requires Ascending(entries) && Width(w) && from < |entries|
    ensures within == Scanned(entries, addr, w, from, |entries|)
  {
    within := [];
    var i, more := from, true;
    while more && i < |entries|
      invariant from <= i <= |entries|
      invariant within == Scanned(entries, addr, w, from, if more then i else |entries|)
      decreases |entries| - i
    {
      if Overlaps(entries[i], addr, w) {
        within := within + [i];
      } else if addr + w <= entries[i].offset {
        BeyondCell(entries, i, addr, w);
        NothingScanned(entries, addr, w, from, i, |entries|);
        more := false;
      }
      i := i + 1;
    }
  }

  // ---- lists that do not overlap are scanned to the table ----

  /** The entries below `n` end at or before `addr`. */
  ghost predicate BehindBy(entries: seq<Entry>, n: nat, addr: nat) {
    n <= |entries| && forall k :: 0 <= k < n ==> entries[k].End() <= addr
  }

  lemma BehindCell(entries: seq<Entry>, n: nat, addr: nat, w: nat)
    requires Sorted(entries) && BehindBy(entries, n, addr)
    ensures NoneOverlap(entries, addr, w, 0, n)
  {
  }

  lemma BehindOverlap(entries: seq<Entry>, i: nat, addr: nat, w: nat)
    requires Sorted(entries) && i < |entries| && Overlaps(entries[i], addr, w) && w > 0
    ensures BehindBy(entries, i, addr + w)
  {
  }

  lemma {:induction false} ScannedIsOverlapping(entries: seq<Entry>, addr: nat, w: nat, from: nat, n: nat)
    requires from <= n <= |entries| && NoneOverlap(entries, addr, w, 0, from)
    ensures Scanned(entries, addr, w, from, n) == Overlapping(entries, addr, w, n)
    decreases n
  {
    if n == from {
      NothingOverlaps(entries, addr, w, 0, from);
    } else {
      ScannedIsOverlapping(entries, addr, w, from, n - 1);
    }
  }

  /** One cell of such a list: the scan finds what overlaps it, and goes on behind no entry that is left. */
  lemma ScanCellExact(entries: seq<Entry>, w: nat, addr: nat, from: nat)
    requires Sorted(entries) && Width(w) && from < |entries| && BehindBy(entries, from, addr)
    ensures var within := Scanned(entries, addr, w, from, |entries|);
      && within == Overlapping(entries, addr, w, |entries|) && |within| <= w
      && BehindBy(entries, Resume(within, from), addr + w)
  {
    BehindCell(entries, from, addr, w);
    ScannedIsOverlapping(entries, addr, w, from, |entries|);
    FewOverlap(entries, addr, w, |entries|);
    var within := Scanned(entries, addr, w, from, |entries|);
    if within != [] {
      ScannedOverlap(entries, addr, w, from, |entries|);
      BehindOverlap(entries, within[|within| - 1], addr, w);
    }
  }

  lemma {:induction false} ScanIsCells(entries: seq<Entry>, w: nat, addr: nat, end: nat, from: nat)
    requires Sorted(entries) && Width(w) && from < |entries| && BehindBy(entries, from, addr)
    ensures Scan(entries, w, addr, end, from) == Some(Cells(entries, w, addr, end))
    decreases if addr < end then end - addr else 0
  {
    if addr < end {
      ScanCellExact(entries, w, addr, from);
      ScanIsCells(entries, w, addr + w, end, Resume(Scanned(entries, addr, w, from, |entries|), from));
    }
  }

  /** Consecutive cells from the aligned first to the aligned last address, each with exactly the entries
      that share a byte with it. */
  lemma SortedScansToTable(entries: seq<Entry>, w: nat)
    requires Sorted(entries) && Width(w)
    ensures ScanAll(entries, w) == Some(Table(entries, w))
  {
    ScanIsCells(entries, w, AlignDown(MinAddr(entries), w), AlignUp(MaxAddr(entries), w), 0);
  }

  // ---- lists that overlap are rejected ----

  ghost predicate SortedBelow(entries: seq<Entry>, n: nat)
    requires n <= |entries|
  {
    forall i, j :: 0 <= i < j < n ==> entries[i].End() <= entries[j].offset
  }

  /** The first entry that overlaps an earlier one, and that one. */
  lemma {:induction false} FirstOverlap(entries: seq<Entry>, n: nat) returns (i: nat, j: nat)
    requires n <= |entries| && !SortedBelow(entries, n)
    ensures i < j < n && entries[i].End() > entries[j].offset && SortedBelow(entries, j)
    decreases n
  {
    if SortedBelow(entries, n - 1) {
      j := n - 1;
      i :| 0 <= i < j && entries[i].End() > entries[j].offset;
    } else {
      i, j := FirstOverlap(entries, n - 1);
    }
  }

  lemma {:induction false} ScannedHasBoth(entries: seq<Entry>, addr: nat, w: nat, from: nat, n: nat, i: nat, j: nat)
    requires from <= i < j < n <= |entries| && Overlaps(entries[i], addr, w) && Overlaps(entries[j], addr, w)
    ensures |Scanned(entries, addr, w, from, n)| >= 2
    decreases n
  {
    if n - 1 == j {
      ScannedHasOne(entries, addr, w, from, n - 1, i);
    } else {
      ScannedHasBoth(entries, addr, w, from, n - 1, i, j);
    }
  }

  lemma {:induction false} ScannedHasOne(entries: seq<Entry>, addr: nat, w: nat, from: nat, n: nat, i: nat)
    requires from <= i < n <= |entries| && Overlaps(entries[i], addr, w)
    ensures |Scanned(entries, addr, w, from, n)| >= 1
    decreases n
  {
    if n - 1 != i {
      ScannedHasOne(entries, addr, w, from, n - 1, i);
    }
  }

  lemma {:induction false} ScannedOverlap(entries: seq<Entry>, addr: nat, w: nat, from: nat, n: nat)
    requires from <= n <= |entries|
    ensures forall k :: 0 <= k < |Scanned(entries, addr, w, from, n)| ==>
              Overlaps(entries[Scanned(entries, addr, w, from, n)[k]], addr, w)
    decreases n
  {
    if n > from {
      ScannedOverlap(entries, addr, w, from, n - 1);
    }
  }

  lemma AscendingOffsets(entries: seq<Entry>, i: nat, j: nat)
    requires Ascending(entries) && i < |entries| && j < |entries|
    ensures i <= j <==> entries[i].offset <= entries[j].offset
  {
  }

  /** Before the byte where entry `j` starts, the scan has not gone past an entry that reaches that byte. */
  lemma ResumesBehind(entries: seq<Entry>, addr: nat, from: nat, j: nat)
    requires Ascending(entries) && from < j < |entries| && SortedBelow(entries, j) && addr < entries[j].offset
    requires BehindBy(entries, from, addr)
    ensures var next := Resume(Scanned(entries, addr, 1, from, |entries|), from);
      next < j && BehindBy(entries, next, addr + 1)
  {
    var within := Scanned(entries, addr, 1, from, |entries|);
    if within != [] {
      ScannedOverlap(entries, addr, 1, from, |entries|);
      var last := within[|within| - 1];
      assert Overlaps(entries[last], addr, 1);
      AscendingOffsets(entries, j, last);
    }
  }

  lemma {:induction false} OverlapRejected(entries: seq<Entry>, addr: nat, end: nat, from: nat, i: nat, j: nat)
    requires Ascending(entries) && i < j < |entries| && SortedBelow(entries, j) && entries[i].End() > entries[j].offset
    requires from < j && BehindBy(entries, from, addr) && addr <= entries[j].offset < end
    ensures Scan(entries, 1, addr, end, from) == None
    decreases entries[j].offset - addr
  {
    if addr == entries[j].offset {
      assert from <= i;
      assert entries[i].offset < entries[j].offset;
      ScannedHasBoth(entries, addr, 1, from, |entries|, i, j);
    } else {
      ResumesBehind(entries, addr, from, j);
      OverlapRejected(entries, addr + 1, end, Resume(Scanned(entries, addr, 1, from, |entries|), from), i, j);
    }
  }

  /** The byte table is compiled exactly for the lists without overlap: on all others the assertion on the
      number of entries fails. */
  lemma AcceptedExactly(entries: seq<Entry>)
    requires Ascending(entries)
    ensures ScanAll(entries, 1).Some? <==> Sorted(entries)
  {
    if Sorted(entries) {
      SortedScansToTable(entries, 1);
    } else {
      assert !SortedBelow(entries, |entries|);
      var i, j := FirstOverlap(entries, |entries|);
      assert entries[j].offset <= entries[|entries| - 1].offset < MaxAddr(entries);
      OverlapRejected(entries, MinAddr(entries), MaxAddr(entries), 0, i, j);
    }
  }

  /** The tables of a list that is accepted. */
  lemma AcceptedTables(entries: seq<Entry>, w: nat)
    requires Ascending(entries) && Width(w) && ScanAll(entries, 1).Some?
    ensures ScanAll(entries, w) == Some(Table(entries, w)) && Sorted(entries)
  {
    AcceptedExactly(entries);
    SortedScansToTable(entries, w);
  }

  /** Which cell of a table holds which addresses. */
  lemma {:induction false} CellAt(entries: seq<Entry>, w: nat, addr: nat, end: nat, j: nat)
    requires Width(w) && addr + w * j < end
    ensures j < |Cells(entries, w, addr, end)|
    ensures Cells(entries, w, addr, end)[j] == Cell(addr + w * j, Overlapping(entries, addr + w * j, w, |entries|))
    decreases j
  {
    if j > 0 {
      assert addr + w * j == addr + w + w * (j - 1);
      CellAt(entries, w, addr + w, end, j - 1);
    }
  }

  /** The generated index into the table of width `w`: the shift is by the width's logarithm. */
  function Index(entries: seq<Entry>, w: nat, offset: nat): nat
    requires entries != [] && offset >= MinAddr(entries)
  {
    var distance := offset - MinAddr(entries);
    if w == 1 then distance else if w == 2 then distance / 2 else distance / 4
  }

  predicate InRange(entries: seq<Entry>, offset: nat)
    requires entries != []
  {
    MinAddr(entries) <= offset < MaxAddr(entries)
  }

  ghost predicate IndexesRight(entries: seq<Entry>, w: nat, offset: nat)
    requires entries != [] && Width(w) && InRange(entries, offset)
  {
    && Index(entries, w, offset) < |Table(entries, w)|
    && Table(entries, w)[Index(entries, w, offset)]
    == Cell(AlignDown(offset, w), Overlapping(entries, AlignDown(offset, w), w, |entries|))
  }

  lemma IndexArithmetic(min: nat, w: nat, distance: nat)
    requires Aligned(min, w)
    ensures var j := if w == 1 then distance else if w == 2 then distance / 2 else distance / 4;
      min + w * j == AlignDown(min + distance, w)
  {
    if w == 2 {
      assert min == 2 * (min / 2) && (min + distance) / 2 == min / 2 + distance / 2;
    } else if w == 4 {
      assert min == 4 * (min / 4) && (min + distance) / 4 == min / 4 + distance / 4;
    }
  }

  lemma AlignedIndex(entries: seq<Entry>, w: nat, offset: nat)
    requires entries != [] && Width(w) && InRange(entries, offset) && Aligned(MinAddr(entries), w)
    ensures IndexesRight(entries, w, offset)
  {
    IndexArithmetic(MinAddr(entries), w, offset - MinAddr(entries));
    CellAt(entries, w, MinAddr(entries), AlignUp(MaxAddr(entries), w), Index(entries, w, offset));
  }

  lemma FirstCell(entries: seq<Entry>, w: nat)
    requires entries != [] && Width(w) && MinAddr(entries) < MaxAddr(entries)
    ensures var low := AlignDown(MinAddr(entries), w);
      |Table(entries, w)| > 0 && Table(entries, w)[0] == Cell(low, Overlapping(entries, low, w, |entries|))
  {
    var none := 0;
    CellAt(entries, w, AlignDown(MinAddr(entries), w), AlignUp(MaxAddr(entries), w), none);
  }

  lemma NextCellMisses(entries: seq<Entry>, w: nat)
    requires entries != [] && Width(w) && !Aligned(MinAddr(entries), w)
    requires MaxAddr(entries) > AlignDown(MinAddr(entries), w) + w
    ensures InRange(entries, AlignDown(MinAddr(entries), w) + w)
    ensures !IndexesRight(entries, w, AlignDown(MinAddr(entries), w) + w)
  {
    FirstCell(entries, w);
    assert Index(entries, w, AlignDown(MinAddr(entries), w) + w) == 0;
  }

  lemma OnlyCell(entries: seq<Entry>, w: nat, offset: nat)
    requires entries != [] && Width(w) && InRange(entries, offset)
    requires MaxAddr(entries) <= AlignDown(MinAddr(entries), w) + w
    ensures IndexesRight(entries, w, offset)
  {
    FirstCell(entries, w);
    SameCell(MinAddr(entries), offset, w);
  }

  lemma SameCell(min: nat, offset: nat, w: nat)
    requires Width(w) && min <= offset < AlignDown(min, w) + w
    ensures AlignDown(offset, w) == AlignDown(min, w)
    ensures w > 1 ==> (offset - min) / w == 0
  {
    if w == 2 {
      assert offset / 2 == min / 2;
    } else if w == 4 {
      assert offset / 4 == min / 4;
    }
  }

  /** Every address in range finds the cell it lies in exactly when the first register is aligned to the
      width, unless the table has a single cell. */
  lemma IndexExact(entries: seq<Entry>, w: nat)
    requires entries != [] && Width(w)
    ensures (forall offset :: InRange(entries, offset) ==> IndexesRight(entries, w, offset))
       <==> (Aligned(MinAddr(entries), w) || MaxAddr(entries) <= AlignDown(MinAddr(entries), w) + w)
  {
    if Aligned(MinAddr(entries), w) || MaxAddr(entries) <= AlignDown(MinAddr(entries), w) + w {
      forall offset | InRange(entries, offset)
        ensures IndexesRight(entries, w, offset)
      {
        if Aligned(MinAddr(entries), w) {
          AlignedIndex(entries, w, offset);
        } else {
          OnlyCell(entries, w, offset);
        }
      }
    } else {
      NextCellMisses(entries, w);
    }
  }

  // ---- words and their bytes ----

  /** A u32 written out as its bytes, lowest first. All shifts in the generated code are by whole bytes. */
  type Word = v: seq<bv8> | |v| == 4 witness [0, 0, 0, 0]

  function Left(v: Word, n: nat): Word { seq(4, i requires 0 <= i < 4 => if n <= i then v[i - n] else 0) }

  function Right(v: Word, n: nat): Word { seq(4, i requires 0 <= i < 4 => if i + n < 4 then v[i + n] else 0) }

  /** The cast to an integer of `w` bytes. */
  function Cast(v: Word, w: nat): Word { seq(4, i requires 0 <= i < 4 => if i < w then v[i] else 0) }

  function Or(a: Word, b: Word): Word { seq(4, i requires 0 <= i < 4 => a[i] | b[i]) }

  function Merge(current: Word, value: Word, mask: Word): Word {
    seq(4, i requires 0 <= i < 4 => (current[i] & !mask[i]) | (value[i] & mask[i]))
  }

  const ALL_ONES: Word := [0xFF, 0xFF, 0xFF, 0xFF]
  const ZERO: Word := [0, 0, 0, 0]

  // ---- compiled reads ----

  /** The generated expression of a read cell: a register's value moved to where it lies in the cell. */
  datatype Expr =
    | Zero
    | BitOr(left: Expr, right: Expr)
    | CastLeft(entry: nat, shift: nat) // (f(emu) as uN) << shift
    | RightCast(entry: nat, shift: nat) // (f(emu) >> shift) as uN

  predicate InScope(e: Expr, n: nat) {
    match e
    case Zero => true
    case BitOr(l, r) => InScope(l, n) && InScope(r, n)
    case CastLeft(i, _) => i < n
    case RightCast(i, _) => i < n
  }

  /** The value of an expression of width `w` when the registers read `regs`. */
  function Eval(e: Expr, regs: seq<Word>, w: nat): Word
    requires InScope(e, |regs|)
  {
    match e
    case Zero => ZERO
    case BitOr(l, r) => Or(Eval(l, regs, w), Eval(r, regs, w))
    case CastLeft(i, n) => Cast(Left(Cast(regs[i], w), n), w)
    case RightCast(i, n) => Cast(Right(regs[i], n), w)
  }

  function Term(entries: seq<Entry>, i: nat, addr: nat): Expr
    requires i < |entries|
  {
    if entries[i].offset >= addr then CastLeft(i, entries[i].offset - addr) else RightCast(i, addr - entries[i].offset)
  }

  function Terms(entries: seq<Entry>, within: seq<nat>, addr: nat): Expr
    requires Indices(within, |entries|)
  {
    if within == [] then Zero
    else BitOr(Terms(entries, within[..|within| - 1], addr), Term(entries, within[|within| - 1], addr))
  }

  /** `assemble_read_lut` for one cell: `None` is the shared function that reads 0. */
  method AssembleRead(entries: seq<Entry>, cell: Cell) returns (e: Option<Expr>)
    requires Indices(cell.entries, |entries|)
    ensures e == if cell.entries == [] then None else Some(Terms(entries, cell.entries, cell.offset))
  {
    if cell.entries == [] {
      return None;
    }
    var terms := Zero;
    for n := 0 to |cell.entries|
      invariant terms == Terms(entries, cell.entries[..n], cell.offset)
    {
      assert cell.entries[..n + 1][..n] == cell.entries[..n];
      var i := cell.entries[n];
      terms := BitOr(terms, if entries[i].offset >= cell.offset then CastLeft(i, entries[i].offset - cell.offset)
                            else RightCast(i, cell.offset - entries[i].offset));
    }
    assert cell.entries[..|cell.entries|] == cell.entries;
    e := Some(terms);
  }

  // ---- what a compiled read means ----

  /** Registers read values of their own size. */
  ghost predicate RegsFit(entries: seq<Entry>, regs: seq<Word>) {
    |regs| == |entries| && forall i :: 0 <= i < |entries| ==> FitsSize(regs[i], entries[i].size)
  }

  predicate FitsSize(r: Word, size: nat) { forall j :: size <= j < 4 ==> r[j] == 0 }

  predicate Covers(e: Entry, a: nat) { e.offset <= a < e.End() }

  /** The byte at address `a`: that of the register covering it among the first `n`, or 0. */
  function ByteBelow(entries: seq<Entry>, regs: seq<Word>, a: nat, n: nat): bv8
    requires n <= |entries| == |regs|
  {
    if n == 0 then 0
    else if Covers(entries[n - 1], a) then ByteOf(regs[n - 1], a - entries[n - 1].offset)
    else ByteBelow(entries, regs, a, n - 1)
  }

  function ByteOf(v: Word, k: nat): bv8 { if k < 4 then v[k] else 0 }

  /** What reading the cell at `addr` gives. */
  function ReadCell(entries: seq<Entry>, regs: seq<Word>, addr: nat, w: nat): Word
    requires |regs| == |entries|
  {
    TermsRead(entries, regs, addr, w, |entries|);
    Eval(Terms(entries, Overlapping(entries, addr, w, |entries|), addr), regs, w)
  }

  lemma {:induction false} NotCoveredBelow(entries: seq<Entry>, regs: seq<Word>, a: nat, n: nat, m: nat)
    requires Sorted(entries) && |regs| == |entries| && n <= m < |entries| && Covers(entries[m], a)
    ensures ByteBelow(entries, regs, a, n) == 0
  {
    if n > 0 {
      assert entries[n - 1].End() <= entries[m].offset;
      NotCoveredBelow(entries, regs, a, n - 1, m);
    }
  }

  lemma TermByte(e: Entry, r: Word, addr: nat, w: nat, k: nat)
    requires Width(e.size) && FitsSize(r, e.size) && Width(w) && k < 4 && Overlaps(e, addr, w)
    ensures (if e.offset >= addr then Cast(Left(Cast(r, w), e.offset - addr), w)
             else Cast(Right(r, addr - e.offset), w))[k]
         == if k < w && Covers(e, addr + k) then ByteOf(r, addr + k - e.offset) else 0
  {
  }

  /** The terms of the first `n` entries, without the index list. */
  function ReadBelow(entries: seq<Entry>, regs: seq<Word>, addr: nat, w: nat, n: nat): Word
    requires n <= |entries| == |regs|
  {
    if n == 0 then ZERO
    else if Overlaps(entries[n - 1], addr, w) then
      Or(ReadBelow(entries, regs, addr, w, n - 1), Eval(Term(entries, n - 1, addr), regs, w))
    else ReadBelow(entries, regs, addr, w, n - 1)
  }

  lemma TermsAppend(entries: seq<Entry>, before: seq<nat>, i: nat, addr: nat)
    requires Indices(before, |entries|) && i < |entries|
    ensures Indices(before + [i], |entries|)
    ensures Terms(entries, before + [i], addr) == BitOr(Terms(entries, before, addr), Term(entries, i, addr))
  {
    assert (before + [i])[..|before|] == before;
  }

  lemma {:induction false} TermsInScope(entries: seq<Entry>, addr: nat, w: nat, n: nat)
    requires n <= |entries|
    ensures Indices(Overlapping(entries, addr, w, n), |entries|)
    ensures InScope(Terms(entries, Overlapping(entries, addr, w, n), addr), |entries|)
  {
    if n > 0 {
      TermsInScope(entries, addr, w, n - 1);
      TermsStep(entries, addr, w, n);
    }
  }

  lemma TermsStep(entries: seq<Entry>, addr: nat, w: nat, n: nat)
    requires 0 < n <= |entries| && Indices(Overlapping(entries, addr, w, n - 1), |entries|)
    ensures Indices(Overlapping(entries, addr, w, n), |entries|)
    ensures var before := Terms(entries, Overlapping(entries, addr, w, n - 1), addr);
      Terms(entries, Overlapping(entries, addr, w, n), addr)
      == if Overlaps(entries[n - 1], addr, w) then BitOr(before, Term(entries, n - 1, addr)) else before
  {
    var before := Overlapping(entries, addr, w, n - 1);
    if Overlaps(entries[n - 1], addr, w) {
      TermsAppend(entries, before, n - 1, addr);
    } else {
      assert Overlapping(entries, addr, w, n) == before;
    }
  }

  lemma {:induction false} TermsRead(entries: seq<Entry>, regs: seq<Word>, addr: nat, w: nat, n: nat)
    requires n <= |entries| == |regs|
    ensures Indices(Overlapping(entries, addr, w, n), |entries|)
    ensures InScope(Terms(entries, Overlapping(entries, addr, w, n), addr), |regs|)
    ensures Eval(Terms(entries, Overlapping(entries, addr, w, n), addr), regs, w)
         == ReadBelow(entries, regs, addr, w, n)
  {
    TermsInScope(entries, addr, w, n);
    if n > 0 {
      TermsRead(entries, regs, addr, w, n - 1);
      TermsStep(entries, addr, w, n);
    }
  }

  /** The byte of an entry at an address: its own where it covers it, and 0 elsewhere. */
  function ByteFrom(e: Entry, r: Word, a: nat): bv8 { if Covers(e, a) then ByteOf(r, a - e.offset) else 0 }

  /** The bytes of the first `n` entries, put together. */
  function OrOf(bytes: seq<bv8>, n: nat): bv8
    requires n <= |bytes|
  {
    if n == 0 then 0 else OrOf(bytes, n - 1) | bytes[n - 1]
  }

  /** What byte `k` of a cell's read gets from the `i`-th entry. */
  predicate Gives(entries: seq<Entry>, regs: seq<Word>, addr: nat, w: nat, k: nat, i: nat, b: bv8)
    requires i < |entries| == |regs| && k < 4
  {
    b == if Overlaps(entries[i], addr, w) then Eval(Term(entries, i, addr), regs, w)[k] else 0
  }

  lemma TermGives(entries: seq<Entry>, regs: seq<Word>, addr: nat, w: nat, k: nat, i: nat)
    requires Sorted(entries) && RegsFit(entries, regs) && i < |entries| && Width(w) && k < 4
    ensures Gives(entries, regs, addr, w, k, i, if k < w then ByteFrom(entries[i], regs[i], addr + k) else 0)
  {
    if Overlaps(entries[i], addr, w) {
      TermByte(entries[i], regs[i], addr, w, k);
    }
  }

  lemma ReadWith(entries: seq<Entry>, regs: seq<Word>, addr: nat, w: nat, k: nat, i: nat, b: bv8)
    requires i < |entries| == |regs| && k < 4 && Overlaps(entries[i], addr, w)
    requires b == Eval(Term(entries, i, addr), regs, w)[k]
    ensures ReadBelow(entries, regs, addr, w, i + 1)[k] == ReadBelow(entries, regs, addr, w, i)[k] | b
  {
    OrByte(ReadBelow(entries, regs, addr, w, i), Eval(Term(entries, i, addr), regs, w), k);
  }

  lemma ReadWithout(entries: seq<Entry>, regs: seq<Word>, addr: nat, w: nat, i: nat)
    requires i < |entries| == |regs| && !Overlaps(entries[i], addr, w)
    ensures ReadBelow(entries, regs, addr, w, i + 1) == ReadBelow(entries, regs, addr, w, i)
  {
  }

  lemma ReadNext(entries: seq<Entry>, regs: seq<Word>, addr: nat, w: nat, k: nat, i: nat, b: bv8)
    requires i < |entries| == |regs| && k < 4 && Gives(entries, regs, addr, w, k, i, b)
    ensures ReadBelow(entries, regs, addr, w, i + 1)[k] == ReadBelow(entries, regs, addr, w, i)[k] | b
  {
    if Overlaps(entries[i], addr, w) {
      ReadWith(entries, regs, addr, w, k, i, b);
    } else {
      ReadWithout(entries, regs, addr, w, i);
      OrZero(ReadBelow(entries, regs, addr, w, i)[k]);
    }
  }

  lemma {:induction false} SumsAreOrOf(sums: seq<bv8>, bytes: seq<bv8>, n: nat)
    requires |sums| == |bytes| + 1 && n <= |bytes| && sums[0] == 0
    requires forall i :: 0 <= i < |bytes| ==> sums[i + 1] == sums[i] | bytes[i]
    ensures sums[n] == OrOf(bytes, n)
  {
    if n > 0 {
      SumsAreOrOf(sums, bytes, n - 1);
    }
  }

  lemma {:induction false} OrOfZeros(bytes: seq<bv8>, n: nat)
    requires n <= |bytes| && forall i :: 0 <= i < |bytes| ==> bytes[i] == 0
    ensures OrOf(bytes, n) == 0
  {
    if n > 0 {
      OrOfZeros(bytes, n - 1);
      OrZero(0);
    }
  }

  lemma {:induction false} OrOfIsByte(entries: seq<Entry>, regs: seq<Word>, a: nat, bytes: seq<bv8>, n: nat)
    requires Sorted(entries) && n <= |entries| == |regs| == |bytes|
    requires forall i :: 0 <= i < |bytes| ==> bytes[i] == ByteFrom(entries[i], regs[i], a)
    ensures OrOf(bytes, n) == ByteBelow(entries, regs, a, n)
  {
    if n > 0 {
      OrOfIsByte(entries, regs, a, bytes, n - 1);
      ByteBelowStep(entries, regs, a, n - 1);
    }
  }

  predicate AreReads(entries: seq<Entry>, regs: seq<Word>, addr: nat, w: nat, k: nat, sums: seq<bv8>)
    requires |entries| == |regs| && k < 4
  {
    |sums| == |entries| + 1
    && forall i :: 0 <= i <= |entries| ==> sums[i] == ReadBelow(entries, regs, addr, w, i)[k]
  }

  predicate AreBytes(entries: seq<Entry>, regs: seq<Word>, a: nat, inside: bool, bytes: seq<bv8>)
    requires |entries| == |regs|
  {
    |bytes| == |entries|
    && forall i :: 0 <= i < |entries| ==> bytes[i] == if inside then ByteFrom(entries[i], regs[i], a) else 0
  }

  lemma ReadsSumBytes(entries: seq<Entry>, regs: seq<Word>, addr: nat, w: nat, k: nat, sums: seq<bv8>, bytes: seq<bv8>,
                      i: nat)
    requires Sorted(entries) && RegsFit(entries, regs) && Width(w) && k < 4 && i < |entries|
    requires AreReads(entries, regs, addr, w, k, sums) && AreBytes(entries, regs, addr + k, k < w, bytes)
    ensures sums[i + 1] == sums[i] | bytes[i]
  {
    TermGives(entries, regs, addr, w, k, i);
    ReadNext(entries, regs, addr, w, k, i, bytes[i]);
  }

  lemma SumOfReads(entries: seq<Entry>, regs: seq<Word>, addr: nat, w: nat, k: nat, sums: seq<bv8>, bytes: seq<bv8>,
                   n: nat)
    requires Sorted(entries) && RegsFit(entries, regs) && Width(w) && k < 4 && n <= |entries|
    requires AreReads(entries, regs, addr, w, k, sums) && AreBytes(entries, regs, addr + k, k < w, bytes)
    ensures sums[n] == OrOf(bytes, n)
  {
    forall i | 0 <= i < |bytes|
      ensures sums[i + 1] == sums[i] | bytes[i]
    {
      ReadsSumBytes(entries, regs, addr, w, k, sums, bytes, i);
    }
    SumsAreOrOf(sums, bytes, n);
  }

  lemma SumOfBytes(entries: seq<Entry>, regs: seq<Word>, a: nat, inside: bool, bytes: seq<bv8>, n: nat)
    requires Sorted(entries) && n <= |entries| == |regs| && AreBytes(entries, regs, a, inside, bytes)
    ensures OrOf(bytes, n) == if inside then ByteBelow(entries, regs, a, n) else 0
  {
    if inside {
      OrOfIsByte(entries, regs, a, bytes, n);
    } else {
      OrOfZeros(bytes, n);
    }
  }

  lemma SeqOfReads(entries: seq<Entry>, regs: seq<Word>, addr: nat, w: nat, k: nat) returns (sums: seq<bv8>)
    requires |entries| == |regs| && k < 4
    ensures AreReads(entries, regs, addr, w, k, sums)
  {
    sums := seq(|entries| + 1, i requires 0 <= i <= |entries| => ReadBelow(entries, regs, addr, w, i)[k]);
  }

  lemma SeqOfBytes(entries: seq<Entry>, regs: seq<Word>, a: nat, inside: bool) returns (bytes: seq<bv8>)
    requires |entries| == |regs|
    ensures AreBytes(entries, regs, a, inside, bytes)
  {
    bytes := seq(|entries|, i requires 0 <= i < |entries| => if inside then ByteFrom(entries[i], regs[i], a) else 0);
  }

  lemma ReadBelowByte(entries: seq<Entry>, regs: seq<Word>, addr: nat, w: nat, k: nat, n: nat)
    requires Sorted(entries) && RegsFit(entries, regs) && n <= |entries| && Width(w) && k < 4
    ensures ReadBelow(entries, regs, addr, w, n)[k] == if k < w then ByteBelow(entries, regs, addr + k, n) else 0
  {
    var sums := SeqOfReads(entries, regs, addr, w, k);
    var bytes := SeqOfBytes(entries, regs, addr + k, k < w);
    SumOfReads(entries, regs, addr, w, k, sums, bytes, n);
    SumOfBytes(entries, regs, addr + k, k < w, bytes, n);
  }

  lemma ByteBelowStep(entries: seq<Entry>, regs: seq<Word>, a: nat, i: nat)
    requires Sorted(entries) && i < |entries| == |regs|
    ensures ByteBelow(entries, regs, a, i) | ByteFrom(entries[i], regs[i], a) == ByteBelow(entries, regs, a, i + 1)
  {
    if Covers(entries[i], a) {
      NotCoveredBelow(entries, regs, a, i, i);
      OrZero(ByteOf(regs[i], a - entries[i].offset));
    } else {
      OrZero(ByteBelow(entries, regs, a, i));
    }
  }

  lemma OrByte(a: Word, b: Word, k: nat)
    requires k < 4
    ensures Or(a, b)[k] == a[k] | b[k]
  {
  }

  lemma OrZero(b: bv8)
    ensures b | 0 == b && 0 | b == b
  {
  }

  lemma ReadByte(entries: seq<Entry>, regs: seq<Word>, addr: nat, w: nat, k: nat)
    requires Sorted(entries) && RegsFit(entries, regs) && Width(w) && k < 4
    ensures ReadCell(entries, regs, addr, w)[k] == if k < w then ByteBelow(entries, regs, addr + k, |entries|) else 0
  {
    TermsRead(entries, regs, addr, w, |entries|);
    ReadBelowByte(entries, regs, addr, w, k, |entries|);
  }

  /** A read of any width is the little-endian join of the bytes at its addresses, 0 where no register
      lies; so reads of different widths agree byte by byte. */
  lemma ReadIsJoin(entries: seq<Entry>, regs: seq<Word>, addr: nat, w: nat, k: nat)
    requires Sorted(entries) && RegsFit(entries, regs) && Width(w) && k < 4
    ensures ReadCell(entries, regs, addr, w)[k] == if k < w then ByteBelow(entries, regs, addr + k, |entries|) else 0
    ensures k < w ==> ReadCell(entries, regs, addr, w)[k] == ReadCell(entries, regs, addr + k, 1)[0]
  {
    ReadByte(entries, regs, addr, w, k);
    if k < w {
      ReadByte(entries, regs, addr + k, 1, 0);
    }
  }

  /** The compiled table, indexed as the generated code does, reads the bytes from the address it is asked
      for, rounded down to the width. */
  lemma ReadThroughTable(entries: seq<Entry>, regs: seq<Word>, w: nat, offset: nat, k: nat)
    requires Sorted(entries) && RegsFit(entries, regs) && Width(w) && k < 4
    requires InRange(entries, offset) && Aligned(MinAddr(entries), w)
    ensures Index(entries, w, offset) < |Table(entries, w)|
    ensures var cell := Table(entries, w)[Index(entries, w, offset)];
      && Indices(cell.entries, |entries|) && InScope(Terms(entries, cell.entries, cell.offset), |regs|)
      && Eval(Terms(entries, cell.entries, cell.offset), regs, w)[k]
      == if k < w then ByteBelow(entries, regs, AlignDown(offset, w) + k, |entries|) else 0
  {
    AlignedIndex(entries, w, offset);
    TermsRead(entries, regs, AlignDown(offset, w), w, |entries|);
    ReadByte(entries, regs, AlignDown(offset, w), w, k);
  }

  // ---- compiled writes ----

  /** A generated call of a register's write function. */
  datatype WriteOp =
    | Plain(entry: nat, shift: nat) // f(emu, (value >> shift) as u8)
    | MaskedRight(entry: nat, shift: nat, mask: Word) // f(emu, (value >> shift) as T, mask)
    | MaskedLeft(entry: nat, shift: nat, mask: Word) // f(emu, (value as T) << shift, mask)

  function WriteFor(entries: seq<Entry>, i: nat, addr: nat, w: nat): WriteOp
    requires i < |entries| && Width(w)
  {
    var e, mask := entries[i], Right(ALL_ONES, 4 - w);
    if e.offset >= addr then
      if e.size == 1 then Plain(i, e.offset - addr) else MaskedRight(i, e.offset - addr, Cast(mask, e.size))
    else MaskedLeft(i, addr - e.offset, Cast(Left(mask, addr - e.offset), e.size))
  }

  /** The value that the call passes on. */
  function Argument(op: WriteOp, value: Word, size: nat): Word {
    match op
    case Plain(_, n) => Cast(Right(value, n), 1)
    case MaskedRight(_, n, _) => Cast(Right(value, n), size)
    case MaskedLeft(_, n, _) => Cast(Left(Cast(value, size), n), size)
  }

  /** A register that honours its write mask. */
  function Written(op: WriteOp, current: Word, value: Word, size: nat): Word {
    if op.Plain? then Argument(op, value, size) else Merge(current, Argument(op, value, size), op.mask)
  }

  /** A compiled write of a value of `w` bytes passes no bit outside the mask that it passes. */
  lemma WritesStayInMask(entries: seq<Entry>, i: nat, addr: nat, w: nat, value: Word, j: nat)
    requires i < |entries| && Width(w) && j < 4 && FitsSize(value, w) && !WriteFor(entries, i, addr, w).Plain?
    ensures var op := WriteFor(entries, i, addr, w); Argument(op, value, entries[i].size)[j] & !op.mask[j] == 0
  {
    var op := WriteFor(entries, i, addr, w);
    var arg, ones := Argument(op, value, entries[i].size), Right(ALL_ONES, 4 - w);
    assert forall k :: 0 <= k < 4 ==> ones[k] == if k < w then 0xFF else 0;
    MergeByte(arg[j]);
    assert arg[j] == 0 || op.mask[j] == 0xFF;
    ByteInMask(arg[j], op.mask[j]);
  }

  lemma ByteInMask(a: bv8, m: bv8)
    requires a == 0 || m == 0xFF
    ensures a & !m == 0
  {
  }

  function WriteOps(entries: seq<Entry>, within: seq<nat>, addr: nat, w: nat): seq<WriteOp>
    requires Indices(within, |entries|) && Width(w)
  {
    seq(|within|, n requires 0 <= n < |within| => WriteFor(entries, within[n], addr, w))
  }

  /** `assemble_write_lut` for one cell. A one-byte register never starts before a cell it overlaps. */
  method AssembleWrite(entries: seq<Entry>, cell: Cell, w: nat) returns (ops: seq<WriteOp>)
    requires Indices(cell.entries, |entries|) && Width(w)
    requires forall i :: i in cell.entries ==> Overlaps(entries[i], cell.offset, w)
    ensures ops == WriteOps(entries, cell.entries, cell.offset, w)
  {
    ops := [];
    for n := 0 to |cell.entries|
      invariant ops == WriteOps(entries, cell.entries, cell.offset, w)[..n]
    {
      var i := cell.entries[n];
      assert i in cell.entries;
      var e, mask := entries[i], Right(ALL_ONES, 4 - w);
      if e.offset >= cell.offset {
        var shift := e.offset - cell.offset;
        ops := ops + [if e.size == 1 then Plain(i, shift) else MaskedRight(i, shift, Cast(mask, e.size))];
      } else {
        var shift := cell.offset - e.offset;
        assert e.size != 1;
        ops := ops + [MaskedLeft(i, shift, Cast(Left(mask, shift), e.size))];
      }
    }
  }

  /** The calls of a write cell in order. */
  function RunWrites(entries: seq<Entry>, within: seq<nat>, regs: seq<Word>, addr: nat, w: nat, value: Word)
    : (r: seq<Word>)
    requires Indices(within, |entries|) && |regs| == |entries| && Width(w)
    ensures |r| == |regs|
  {
    if within == [] then regs else
    var before := RunWrites(entries, within[..|within| - 1], regs, addr, w, value);
    var i := within[|within| - 1];
    before[i := Written(WriteFor(entries, i, addr, w), before[i], value, entries[i].size)]
  }

  /** The byte of register `i` after a write to the `w` bytes at `addr`. */
  function Expected(e: Entry, r: Word, addr: nat, w: nat, value: Word, j: nat): bv8
    requires j < 4 && w <= 4
  {
    if addr <= e.offset + j < addr + w then value[e.offset + j - addr] else r[j]
  }

  ghost predicate WritesExactly(entries: seq<Entry>, i: nat, addr: nat, w: nat)
    requires i < |entries| && Width(w)
  {
    forall r: Word, value: Word, j :: 0 <= j < entries[i].size && j < 4 ==>
      Written(WriteFor(entries, i, addr, w), r, value, entries[i].size)[j] == Expected(entries[i], r, addr, w, value, j)
  }

  /** A register that starts inside a cell and reaches past its end. */
  predicate Spills(e: Entry, addr: nat, w: nat) { addr < e.offset && addr + w < e.End() }

  lemma WriteByte(entries: seq<Entry>, i: nat, addr: nat, w: nat, r: Word, value: Word, j: nat)
    requires i < |entries| && Width(w) && Width(entries[i].size) && j < entries[i].size
    requires Overlaps(entries[i], addr, w) && !Spills(entries[i], addr, w)
    ensures Written(WriteFor(entries, i, addr, w), r, value, entries[i].size)[j]
         == Expected(entries[i], r, addr, w, value, j)
  {
    if entries[i].offset < addr {
      WriteByteBefore(entries, i, addr, w, r, value, j);
    } else {
      WriteByteInside(entries, i, addr, w, r, value, j);
    }
  }

  lemma WriteByteBefore(entries: seq<Entry>, i: nat, addr: nat, w: nat, r: Word, value: Word, j: nat)
    requires i < |entries| && Width(w) && Width(entries[i].size) && j < entries[i].size
    requires entries[i].offset < addr < entries[i].End()
    ensures Written(WriteFor(entries, i, addr, w), r, value, entries[i].size)[j]
         == Expected(entries[i], r, addr, w, value, j)
  {
    LeftWriteByte(r, value, addr - entries[i].offset, entries[i].size, w, j);
  }

  lemma WriteByteInside(entries: seq<Entry>, i: nat, addr: nat, w: nat, r: Word, value: Word, j: nat)
    requires i < |entries| && Width(w) && Width(entries[i].size) && j < entries[i].size
    requires addr <= entries[i].offset < addr + w && !Spills(entries[i], addr, w)
    ensures Written(WriteFor(entries, i, addr, w), r, value, entries[i].size)[j]
         == Expected(entries[i], r, addr, w, value, j)
  {
    if entries[i].size > 1 {
      RightWriteByte(r, value, entries[i].offset - addr, entries[i].size, w, j);
    }
  }

  lemma LeftWriteByte(r: Word, value: Word, n: nat, size: nat, w: nat, j: nat)
    requires Width(w) && Width(size) && j < size && 0 < n < size
    ensures Merge(r, Cast(Left(Cast(value, size), n), size), Cast(Left(Right(ALL_ONES, 4 - w), n), size))[j]
         == if n <= j < n + w then value[j - n] else r[j]
  {
    var ones, arg := Right(ALL_ONES, 4 - w), Cast(Left(Cast(value, size), n), size);
    var mask := Cast(Left(ones, n), size);
    assert mask[j] == if n <= j then ones[j - n] else 0;
    assert n <= j ==> ones[j - n] == (if j - n < w then 0xFF else 0) && arg[j] == value[j - n];
    MergedByte(r, arg, mask, j);
  }

  lemma RightWriteByte(r: Word, value: Word, n: nat, size: nat, w: nat, j: nat)
    requires Width(w) && Width(size) && j < size && n < w && (n > 0 ==> n + size <= w)
    ensures Merge(r, Cast(Right(value, n), size), Cast(Right(ALL_ONES, 4 - w), size))[j]
         == if n + j < w then value[n + j] else r[j]
  {
    var mask, arg := Cast(Right(ALL_ONES, 4 - w), size), Cast(Right(value, n), size);
    assert mask[j] == if j < w then 0xFF else 0;
    assert n + j < w ==> arg[j] == value[n + j];
    MergedByte(r, arg, mask, j);
  }

  lemma MergedByte(r: Word, x: Word, mask: Word, j: nat)
    requires j < 4 && (mask[j] == 0 || mask[j] == 0xFF)
    ensures Merge(r, x, mask)[j] == if mask[j] == 0xFF then x[j] else r[j]
  {
    MergeByte(r[j]);
    MergeByte(x[j]);
  }

  lemma MergeByte(r: bv8)
    ensures r & !0 == r && r & !0xFF == 0 && r & 0xFF == r && r & 0 == 0 && r | 0 == r && 0 | r == r
  {
  }

  /** A compiled write changes exactly the addressed bytes of a register it overlaps, for all values,
      exactly when the register does not spill out of the cell. */
  lemma WriteExact(entries: seq<Entry>, i: nat, addr: nat, w: nat)
    requires i < |entries| && Width(w) && Width(entries[i].size) && Overlaps(entries[i], addr, w)
    ensures WritesExactly(entries, i, addr, w) <==> !Spills(entries[i], addr, w)
  {
    var e := entries[i];
    if Spills(e, addr, w) {
      var j := addr + w - e.offset;
      var op := WriteFor(entries, i, addr, w);
      assert op.mask[j] == 0xFF;
      assert Written(op, ALL_ONES, ZERO, e.size)[j] == 0;
      assert Expected(e, ALL_ONES, addr, w, ZERO, j) == 0xFF;
    } else {
      forall r: Word, value: Word, j | 0 <= j < e.size && j < 4
        ensures Written(WriteFor(entries, i, addr, w), r, value, e.size)[j] == Expected(e, r, addr, w, value, j)
      {
        WriteByte(entries, i, addr, w, r, value, j);
      }
    }
  }

  // Two blocks of the same grid are the same or disjoint, and a coarser block holds whole finer ones.
  lemma AlignedNeverSpills(e: Entry, addr: nat, w: nat)
    requires Aligned(e.offset, e.size) && Aligned(addr, w) && Overlaps(e, addr, w)
    ensures !Spills(e, addr, w)
  {
    if w == 4 && e.size == 4 {
      Apart(addr, addr / 4, e.offset, e.offset / 4, 4);
    } else if w == 4 && e.size == 2 {
      Apart(addr, 2 * (addr / 4), e.offset, e.offset / 2, 2);
    } else if w == 2 && e.size == 4 {
      Apart(addr, addr / 2, e.offset, 2 * (e.offset / 4), 2);
    } else if w == 2 && e.size == 2 {
      Apart(addr, addr / 2, e.offset, e.offset / 2, 2);
    }
  }

  lemma Apart(a: nat, x: nat, b: nat, y: nat, unit: nat)
    requires (unit == 2 || unit == 4) && a == unit * x && b == unit * y
    ensures a < b ==> a + unit <= b
    ensures a < b < a + 2 * unit ==> b == a + unit
  {
  }

  /** The writes of the first `n` entries, without the index list. */
  function WriteBelow(entries: seq<Entry>, regs: seq<Word>, addr: nat, w: nat, value: Word, n: nat): (r: seq<Word>)
    requires n <= |entries| == |regs| && Width(w)
    ensures |r| == |regs|
  {
    if n == 0 then regs else
    var before := WriteBelow(entries, regs, addr, w, value, n - 1);
    if Overlaps(entries[n - 1], addr, w) then
      before[n - 1 := Written(WriteFor(entries, n - 1, addr, w), before[n - 1], value, entries[n - 1].size)]
    else before
  }

  lemma RunWritesAppend(entries: seq<Entry>, before: seq<nat>, i: nat, regs: seq<Word>, addr: nat, w: nat, value: Word)
    requires Indices(before, |entries|) && i < |entries| == |regs| && Width(w)
    ensures Indices(before + [i], |entries|)
    ensures var r := RunWrites(entries, before, regs, addr, w, value);
      RunWrites(entries, before + [i], regs, addr, w, value)
      == r[i := Written(WriteFor(entries, i, addr, w), r[i], value, entries[i].size)]
  {
    assert (before + [i])[..|before|] == before;
  }

  ghost predicate RunsAsBelow(entries: seq<Entry>, regs: seq<Word>, addr: nat, w: nat, value: Word, n: nat)
    requires n <= |entries| == |regs| && Width(w) && Indices(Overlapping(entries, addr, w, n), |entries|)
  {
    RunWrites(entries, Overlapping(entries, addr, w, n), regs, addr, w, value)
    == WriteBelow(entries, regs, addr, w, value, n)
  }

  lemma RunWritesStep(entries: seq<Entry>, regs: seq<Word>, addr: nat, w: nat, value: Word, i: nat)
    requires i < |entries| == |regs| && Width(w) && Indices(Overlapping(entries, addr, w, i), |entries|)
    requires RunsAsBelow(entries, regs, addr, w, value, i)
    ensures Indices(Overlapping(entries, addr, w, i + 1), |entries|)
    ensures RunsAsBelow(entries, regs, addr, w, value, i + 1)
  {
    var before := Overlapping(entries, addr, w, i);
    if Overlaps(entries[i], addr, w) {
      RunWritesAppend(entries, before, i, regs, addr, w, value);
    } else {
      assert Overlapping(entries, addr, w, i + 1) == before;
    }
  }

  lemma {:induction false} RunWritesBelow(entries: seq<Entry>, regs: seq<Word>, addr: nat, w: nat, value: Word, n: nat)
    requires n <= |entries| == |regs| && Width(w)
    ensures Indices(Overlapping(entries, addr, w, n), |entries|) && RunsAsBelow(entries, regs, addr, w, value, n)
  {
    if n > 0 {
      RunWritesBelow(entries, regs, addr, w, value, n - 1);
      RunWritesStep(entries, regs, addr, w, value, n - 1);
    }
  }

  lemma {:induction false} WriteBelowByte(entries: seq<Entry>, regs: seq<Word>, addr: nat, w: nat, value: Word, n: nat,
                                          i: nat, j: nat)
    requires Legal(entries) && |regs| == |entries| && Aligned(addr, w) && n <= |entries|
    requires i < |entries| && j < entries[i].size
    ensures WriteBelow(entries, regs, addr, w, value, n)[i][j]
         == if i < n then Expected(entries[i], regs[i], addr, w, value, j) else regs[i][j]
    ensures i >= n ==> WriteBelow(entries, regs, addr, w, value, n)[i] == regs[i]
  {
    if n > 0 {
      WriteBelowByte(entries, regs, addr, w, value, n - 1, i, j);
      if Overlaps(entries[n - 1], addr, w) && i == n - 1 {
        AlignedNeverSpills(entries[i], addr, w);
        WriteByte(entries, i, addr, w, regs[i], value, j);
      }
    }
  }

  /** Writing a cell of a table for naturally aligned registers changes exactly the addressed bytes: every
      byte of every register is the written one if it lies in the cell and the old one otherwise. */
  lemma WriteChangesExactlyTheCell(entries: seq<Entry>, regs: seq<Word>, addr: nat, w: nat, value: Word, i: nat, j: nat)
    requires Legal(entries) && |regs| == |entries| && Aligned(addr, w) && i < |entries| && j < entries[i].size
    ensures Indices(Overlapping(entries, addr, w, |entries|), |entries|)
    ensures RunWrites(entries, Overlapping(entries, addr, w, |entries|), regs, addr, w, value)[i][j]
         == Expected(entries[i], regs[i], addr, w, value, j)
  {
    RunWritesBelow(entries, regs, addr, w, value, |entries|);
    WriteBelowByte(entries, regs, addr, w, value, |entries|, i, j);
  }

  /** The same through the generated index into the table. */
  lemma WriteThroughTable(entries: seq<Entry>, regs: seq<Word>, w: nat, offset: nat, value: Word, i: nat, j: nat)
    requires Legal(entries) && |regs| == |entries| && Width(w) && i < |entries| && j < entries[i].size
    requires InRange(entries, offset) && Aligned(MinAddr(entries), w)
    ensures Index(entries, w, offset) < |Table(entries, w)|
    ensures var cell := Table(entries, w)[Index(entries, w, offset)];
      Indices(cell.entries, |entries|)
      && RunWrites(entries, cell.entries, regs, AlignDown(offset, w), w, value)[i][j]
         == Expected(entries[i], regs[i], AlignDown(offset, w), w, value, j)
  {
    AlignedIndex(entries, w, offset);
    WriteChangesExactlyTheCell(entries, regs, AlignDown(offset, w), w, value, i, j);
  }
}
