/** Over-allocated SMMU tables: where the aligned table and its entries end up. */
module TableLayout {
  import opened Arithmetic
  import opened Bits
  import opened StreamTable

  /** align_to_size: (size - (addr & (size - 1)) + addr) & ~(size - 1). */
  function AlignToSize(addr: nat, size: nat): nat
    requires 0 < size <= WORD64
  {
    AndAtMost(addr, size - 1);
    MaskDown(size - And(addr, size - 1) + addr, size)
  }

  /** The result is the next multiple strictly above the pointer, so a table of `size`
      bytes placed there ends inside an allocation of twice the size. */
  lemma NextMultiple(addr: nat, size: nat)
    requires PowerOfTwo(size) && addr + size < WORD64
    ensures addr < AlignToSize(addr, size) <= addr + size
    ensures AlignToSize(addr, size) % size == 0
    ensures AlignToSize(addr, size) == size - addr % size + addr
  {
    MaskKeeps(addr, size);
    StrictlyAbove(addr, size);
    MaskClears(size - addr % size + addr, size);
  }

  lemma StrictlyAbove(addr: nat, size: nat)
    requires size > 0
    ensures addr < size - addr % size + addr <= addr + size
    ensures (size - addr % size + addr) % size == 0
  {
    Euclid(addr, size);
    RemainderUnique(size - addr % size + addr, size, addr / size + 1, 0);
  }

  /** Entries of `bytes` bytes (64 for stream table entries and context descriptors, 8 for
      first-level context descriptors) of an aligned table of `count` entries lie inside the
      2 * size allocation, and distinct indices give distinct, non-overlapping entries. */
  lemma EntriesInside(ptr: nat, count: nat, bytes: nat, i: nat, j: nat)
    requires i < count && j < count && bytes > 0
    requires PowerOfTwo(count * bytes) && ptr + 2 * (count * bytes) <= WORD64
    ensures var table := AlignToSize(ptr, count * bytes);
            && ptr < table + i * bytes
            && table + (i + 1) * bytes <= ptr + 2 * (count * bytes)
            && (i < j ==> table + (i + 1) * bytes <= table + j * bytes)
  {
    NextMultiple(ptr, count * bytes);
    EntryPlace(ptr, AlignToSize(ptr, count * bytes), count, bytes, i, j);
  }

  lemma EntryPlace(ptr: nat, table: nat, count: nat, bytes: nat, i: nat, j: nat)
    requires i < count && j < count && ptr < table <= ptr + count * bytes
    ensures ptr < table + i * bytes && table + (i + 1) * bytes <= ptr + 2 * (count * bytes)
    ensures i < j ==> table + (i + 1) * bytes <= table + j * bytes
  {
    ProductGrows(count, i + 1, bytes);
    ProductGrows(j, i + 1, bytes);
  }

  // ----- splitting an ID into two indices -----

  /** x >> k */
  function ShiftRight(x: nat, k: nat): nat { if k == 0 then x else ShiftRight(x / 2, k - 1) }

  lemma {:induction false} ShiftIsQuotient(x: nat, k: nat)
    ensures ShiftRight(x, k) == x / Pow2(k)
    decreases k
  {
    if k == 0 {
      RemainderUnique(x, 1, x, 0);
    } else {
      ShiftIsQuotient(x / 2, k - 1);
      DivideTwice(x, 2, Pow2(k - 1));
    }
  }

  /** First index x >> split, second index x & (2^split - 1). */
  lemma SplitParts(x: nat, split: nat)
    ensures ShiftRight(x, split) == x / Pow2(split) && And(x, Pow2(split) - 1) == x % Pow2(split)
  {
    ShiftIsQuotient(x, split);
    MaskKeepsPower(x, Pow2(split), split);
  }

  /** Splitting an ID below 2^bits is one-to-one onto in-bounds slots: at most
      2^(bits - split) first-level entries are used, each of 2^split second-level ones. */
  lemma SplitIsOneToOne(bits: nat, split: nat, x: nat, y: nat)
    requires split <= bits && x < Pow2(bits) && y < Pow2(bits)
    ensures ShiftRight(x, split) < Pow2(bits - split) && And(x, Pow2(split) - 1) < Pow2(split)
    ensures ShiftRight(x, split) == ShiftRight(y, split) && And(x, Pow2(split) - 1) == And(y, Pow2(split) - 1) ==>
              x == y
  {
    SplitParts(x, split);
    SplitParts(y, split);
    Pow2Sum(split, bits - split);
    Join(x, Pow2(split), Pow2(bits - split));
    Join(y, Pow2(split), Pow2(bits - split));
  }

  lemma Join(x: nat, n: nat, m: nat)
    requires n > 0 && x < n * m
    ensures x / n < m && x % n < n && x == x / n * n + x % n
  {
    Euclid(x, n);
    QuotientBelow(x, n, m);
  }

  /** The stream and context tables use these splits: groups of 256 entries, leaves of 1024. */
  lemma TableSplits(x: nat)
    ensures ShiftRight(x, 8) == x / GROUP && And(x, 0xFF) == x % GROUP
    ensures ShiftRight(x, 10) == x / CD_SPLIT && And(x, 0x3FF) == x % CD_SPLIT
  {
    assert Pow2(4) == 16;
    Pow2Sum(4, 4);
    Pow2Sum(8, 2);
    SplitParts(x, 8);
    SplitParts(x, 10);
  }
}
