/** The cartridge's page cache over a ROM file whose reads may fail. */
module Cartridge {
  import opened Machine

  const PAGE: nat := 4096
  const PAGES: nat := 4096

  function PageAddr(address: U32): U32 { address - address % PAGE }

  /** `offset + start` in `u32` arithmetic. */
  function Address(offset: U32, start: nat): U32 { (offset + start) % 0x1_0000_0000 }

  /** Slot `slot` of the cache holds the page at `page`, as far as the file goes. */
  ghost predicate Holds(file: seq<U8>, cache: seq<U8>, slot: nat, page: nat) {
    var start := slot * PAGE;
    && start + PAGE <= |cache|
    && forall i :: start <= i < start + PAGE && page + (i - start) < |file| ==> cache[i] == file[page + (i - start)]
  }

  /** Every mapped page has a slot of its own among the first ones, and that slot holds it. */
  ghost predicate Coherent(file: seq<U8>, pages: map<U32, nat>, cache: seq<U8>) {
    && |pages| <= PAGES
    && (forall p :: p in pages ==> pages[p] < |pages| && Holds(file, cache, pages[p], p))
    && (forall p, q :: p in pages && q in pages && p != q ==> pages[p] != pages[q])
  }

  /** What a read of the file at `page` leaves in the buffer: the bytes the file has there, and the old
      ones after its end. */
  function Filled(file: seq<U8>, cache: seq<U8>, slot: nat, page: nat): (r: seq<U8>)
    requires slot * PAGE + PAGE <= |cache|
    ensures |r| == |cache|
  {
    seq(|cache|, i requires 0 <= i < |cache| =>
      var j := i - slot * PAGE;
      if 0 <= j < PAGE && page + j < |file| then file[page + j] else cache[i])
  }

  lemma FillKeepsOthers(file: seq<U8>, cache: seq<U8>, slot: nat, page: nat, other: nat, otherPage: nat)
    requires slot * PAGE + PAGE <= |cache| && other != slot && Holds(file, cache, other, otherPage)
    ensures Holds(file, Filled(file, cache, slot, page), other, otherPage)
  {
  }

  lemma FillHolds(file: seq<U8>, cache: seq<U8>, slot: nat, page: nat)
    requires slot * PAGE + PAGE <= |cache|
    ensures Holds(file, Filled(file, cache, slot, page), slot, page)
  {
  }

  /** Filling the first unused slot and mapping the page to it keeps the cache coherent. */
  lemma InsertStaysCoherent(file: seq<U8>, pages: map<U32, nat>, cache: seq<U8>, page: U32)
    requires Coherent(file, pages, cache) && page !in pages && |pages| < PAGES && |cache| == PAGES * PAGE
    ensures Coherent(file, pages[page := |pages|], Filled(file, cache, |pages|, page))
  {
    var after := Filled(file, cache, |pages|, page);
    FillHolds(file, cache, |pages|, page);
    forall p | p in pages ensures Holds(file, after, pages[p], p) {
      FillKeepsOthers(file, cache, |pages|, page, pages[p], p);
    }
  }

  /** A failed read leaves anything in the slot it was meant for, which no page maps to. */
  lemma ScratchStaysCoherent(file: seq<U8>, pages: map<U32, nat>, cache: seq<U8>, cache': seq<U8>)
    requires Coherent(file, pages, cache) && |cache'| == |cache|
    requires forall i :: 0 <= i < |cache| && i < |pages| * PAGE ==> cache'[i] == cache[i]
    ensures Coherent(file, pages, cache')
  {
    forall p | p in pages ensures Holds(file, cache', pages[p], p) {
      assert pages[p] * PAGE + PAGE <= |pages| * PAGE;
    }
  }

  /** No page is dropped or moved. */
  ghost predicate KeepsPages(before: map<U32, nat>, after: map<U32, nat>) {
    forall p :: p in before ==> p in after && after[p] == before[p]
  }

  /** The outcome of one file read; a failed one may leave any bytes in the buffer. */
  datatype Outcome = Done | Failed(left: nat -> U8)

  class CartridgeIo {
    const file: seq<U8>
    const io: nat -> Outcome
    var readCount: nat
    var contentPages: map<U32, nat>
    const contentCache: array<U8>

    ghost predicate Valid()
      reads this, contentCache
    {
      contentCache.Length == PAGES * PAGE && Coherent(file, contentPages, contentCache[..])
    }

    constructor (rom: seq<U8>, outcomes: nat -> Outcome)
      ensures Valid() && fresh(contentCache) && file == rom && io == outcomes
    {
      file, io, readCount, contentPages := rom, outcomes, 0, map[];
      contentCache := new U8[PAGES * PAGE];
    }

    /** `read_at` into one slot. */
    method ReadAt(slot: nat, page: U32) returns (ok: bool)
      requires contentCache.Length == PAGES * PAGE && slot < PAGES
      modifies this`readCount, contentCache
      ensures readCount == old(readCount) + 1 && ok == io(old(readCount)).Done?
      ensures ok ==> contentCache[..] == Filled(file, old(contentCache[..]), slot, page)
      ensures forall i :: 0 <= i < contentCache.Length && i < slot * PAGE ==> contentCache[i] == old(contentCache[i])
    {
      var outcome := io(readCount);
      readCount := readCount + 1;
      ok := outcome.Done?;
      var start := slot * PAGE;
      ghost var before := contentCache[..];
      if ok {
        for j := 0 to PAGE
          invariant readCount == old(readCount) + 1
          invariant forall i :: 0 <= i < contentCache.Length ==>
            contentCache[i] == if start <= i < start + j then Filled(file, before, slot, page)[i] else before[i]
        {
          if page + j < |file| {
            contentCache[start + j] := file[page + j];
          }
        }
      } else {
        for j := 0 to PAGE
          invariant readCount == old(readCount) + 1
          invariant forall i :: 0 <= i < contentCache.Length && i < start ==> contentCache[i] == before[i]
        {
          contentCache[start + j] := outcome.left(j);
        }
      }
    }

    /** The reads of the file from the `from`-th on and before the `to`-th all succeed. */
    ghost predicate ReadsFine(from: nat, to: nat) { forall k :: from <= k < to ==> io(k).Done? }

    /** `get_page`: the slot of the page, read in if need be; a full cache is emptied first. */
    method GetPage(page: U32) returns (slot: Option<nat>)
      requires Valid()
      modifies this`readCount, this`contentPages, contentCache
      ensures Valid()
      ensures slot.Some? ==> page in contentPages && contentPages[page] == slot.value
      ensures old(page in contentPages) ==>
                contentPages == old(contentPages) && contentCache[..] == old(contentCache[..])
      ensures old(readCount) <= readCount && slot.Some? == ReadsFine(old(readCount), readCount)
      ensures readCount == old(readCount) + if old(page in contentPages) then 0 else 1
      ensures |old(contentPages)| < PAGES ==> KeepsPages(old(contentPages), contentPages)
    {
      if page in contentPages {
        return Some(contentPages[page]);
      }
      MakeRoom(page);
      slot := ReadPage(page);
    }

    /** A full cache is emptied. */
    method MakeRoom(page: U32)
      requires Valid() && page !in contentPages
      modifies this`contentPages
      ensures Valid() && page !in contentPages && |contentPages| < PAGES
      ensures |old(contentPages)| < PAGES ==> contentPages == old(contentPages)
    {
      if |contentPages| >= PAGES {
        contentPages := map[];
      }
    }

    /** What `get_page` does once it has found room: the page is read into the first unused slot. */
    method ReadPage(page: U32) returns (slot: Option<nat>)
      requires Valid() && page !in contentPages && |contentPages| < PAGES
      modifies this`readCount, this`contentPages, contentCache
      ensures Valid()
      ensures slot.Some? ==> page in contentPages && contentPages[page] == slot.value
      ensures readCount == old(readCount) + 1 && slot.Some? == ReadsFine(old(readCount), readCount)
      ensures KeepsPages(old(contentPages), contentPages) && |contentPages| <= |old(contentPages)| + 1
    {
      var contentOffset := |contentPages|;
      ghost var before := contentCache[..];
      var ok := ReadAt(contentOffset, page);
      if !ok {
        ScratchStaysCoherent(file, contentPages, before, contentCache[..]);
        return None;
      }
      InsertStaysCoherent(file, contentPages, before, page);
      contentPages := contentPages[page := contentOffset];
      slot := Some(contentOffset);
    }

    /** The copy of one stretch out of a slot. */
    method CopyOut(slot: nat, pageOffset: nat, slice: array<U8>, start: nat, amount: nat)
      requires slot * PAGE + pageOffset + amount <= contentCache.Length && start + amount <= slice.Length
      requires slice != contentCache
      modifies slice
      ensures forall i :: 0 <= i < slice.Length ==>
        slice[i] == if start <= i < start + amount then contentCache[slot * PAGE + pageOffset + (i - start)]
                    else old(slice[i])
    {
      for k := 0 to amount
        invariant forall i :: 0 <= i < slice.Length ==>
          slice[i] == if start <= i < start + k then contentCache[slot * PAGE + pageOffset + (i - start)]
                      else old(slice[i])
      {
        slice[start + k] := contentCache[slot * PAGE + pageOffset + k];
      }
    }

    /** The first `n` bytes of the slice are the file's, as far as the file goes. */
    ghost predicate Served(slice: array<U8>, offset: U32, n: nat)
      reads slice
      requires n <= slice.Length
    {
      forall i :: 0 <= i < n ==> Address(offset, i) < |file| ==> slice[i] == file[Address(offset, i)]
    }

    lemma StretchIsInPage(offset: U32, start: nat, k: nat)
      requires Address(offset, start) % PAGE + k < PAGE
      ensures Address(offset, start + k) == Address(offset, start) + k
      ensures Address(offset, start) + k == PageAddr(Address(offset, start)) + (Address(offset, start) % PAGE + k)
    {
      var a := Address(offset, start);
      var q := a / PAGE;
      assert a == PAGE * q + a % PAGE && q < 0x10_0000;
      assert a + k < 0x1_0000_0000;
    }

    /** The part of the slice up to the end of a page, out of the slot that holds the page. */
    method CopyStretch(offset: U32, slice: array<U8>, sliceStart: nat, slot: nat) returns (readAmount: nat)
      requires Valid() && slice != contentCache && sliceStart < slice.Length && Served(slice, offset, sliceStart)
      requires slot < PAGES && Holds(file, contentCache[..], slot, PageAddr(Address(offset, sliceStart)))
      modifies slice
      ensures 0 < readAmount <= slice.Length - sliceStart && Served(slice, offset, sliceStart + readAmount)
    {
      var remaining := slice.Length - sliceStart;
      var pageOffset := Address(offset, sliceStart) - PageAddr(Address(offset, sliceStart));
      var pageSize := PAGE - pageOffset;
      readAmount := if remaining < pageSize then remaining else pageSize;
      CopyOut(slot, pageOffset, slice, sliceStart, readAmount);
      forall i | sliceStart <= i < sliceStart + readAmount && Address(offset, i) < |file|
        ensures slice[i] == file[Address(offset, i)]
      {
        StretchIsInPage(offset, sliceStart, i - sliceStart);
      }
    }

    /** One round of `read_slice`. */
    method ReadStretch(offset: U32, slice: array<U8>, sliceStart: nat) returns (ok: bool, readAmount: nat)
      requires Valid() && slice != contentCache && sliceStart < slice.Length && Served(slice, offset, sliceStart)
      modifies this`readCount, this`contentPages, contentCache, slice
      ensures Valid() && old(readCount) <= readCount && ok == ReadsFine(old(readCount), readCount)
      ensures ok ==> 0 < readAmount <= slice.Length - sliceStart && Served(slice, offset, sliceStart + readAmount)
    {
      var slot := GetPage(PageAddr(Address(offset, sliceStart)));
      if slot.None? {
        return false, 0;
      }
      readAmount := CopyStretch(offset, slice, sliceStart, slot.value);
      ok := true;
    }

    lemma InFileIsExact(slice: array<U8>, offset: U32)
      requires Served(slice, offset, slice.Length) && offset + slice.Length <= |file| <= 0x1_0000_0000
      ensures slice[..] == file[offset..offset + slice.Length]
    {
      forall i | 0 <= i < slice.Length ensures slice[i] == file[offset + i] {
        assert Address(offset, i) == offset + i;
      }
    }

    /** `read_slice`: it fails exactly when a read of the file does. Otherwise every byte of the slice whose
        address lies in the file is the file's byte there, whatever was cached before; addresses go around
        at four gigabytes. */
    method ReadSlice(offset: U32, slice: array<U8>) returns (ok: bool)
      requires Valid() && slice != contentCache
      modifies this`readCount, this`contentPages, contentCache, slice
      ensures Valid() && old(readCount) <= readCount && ok == ReadsFine(old(readCount), readCount)
      ensures ok ==> Served(slice, offset, slice.Length)
      ensures ok && offset + slice.Length <= |file| <= 0x1_0000_0000 ==>
                slice[..] == file[offset..offset + slice.Length]
    {
      var remaining := slice.Length;
      while remaining > 0
        invariant 0 <= remaining <= slice.Length
        invariant Valid() && Served(slice, offset, slice.Length - remaining)
        invariant old(readCount) <= readCount && ReadsFine(old(readCount), readCount)
        decreases remaining
      {
        var stretchOk, readAmount := ReadStretch(offset, slice, slice.Length - remaining);
        if !stretchOk {
          return false;
        }
        remaining := remaining - readAmount;
      }
      ok := true;
      if offset + slice.Length <= |file| <= 0x1_0000_0000 {
        InFileIsExact(slice, offset);
      }
    }
  }
}
