/** The first-fit pool allocator of the EL3 SMMU driver, on an abstract list of blocks. */
module BlockPool {
  import opened Arithmetic
  import opened Bits

  const POOL_SIZE: nat := 0x20_0000
  const HEADER: nat := 24

  /** A block: address of its header, bytes after the header, and whether it is free. */
  datatype Block = Block(addr: nat, size: nat, free: bool) {
    function Start(): nat { addr + HEADER }
    function End(): nat { addr + HEADER + size }
  }

  /** Block i + 1 starts where block i ends. */
  ghost predicate Linked(bs: seq<Block>, i: nat)
    requires i + 1 < |bs|
  {
    bs[i + 1].addr == bs[i].End()
  }

  ghost predicate Chained(bs: seq<Block>) {
    forall i: nat :: i + 1 < |bs| ==> Linked(bs, i)
  }

  /** The blocks cover [base, base + POOL_SIZE) without gap or overlap, in address order. */
  ghost predicate Tiles(bs: seq<Block>, base: nat) {
    && bs != []
    && bs[0].addr == base
    && Chained(bs)
    && bs[|bs| - 1].End() == base + POOL_SIZE
  }

  /** Headers on 8-byte boundaries. */
  ghost predicate Aligned8(bs: seq<Block>) {
    forall i :: 0 <= i < |bs| ==> bs[i].addr % 8 == 0 && bs[i].size % 8 == 0
  }

  ghost function TotalSize(bs: seq<Block>): nat {
    if bs == [] then 0 else bs[0].size + HEADER + TotalSize(bs[1..])
  }

  /** Tiling fixes the sum of all blocks and headers. */
  lemma {:induction false} TilesConserve(bs: seq<Block>, from: nat)
    requires bs != [] && bs[0].addr == from
    requires Chained(bs)
    ensures from + TotalSize(bs) == bs[|bs| - 1].End()
  {
    if |bs| > 1 {
      assert Linked(bs, 0);
      ChainedTail(bs, 1);
      TilesConserve(bs[1..], bs[1].addr);
    }
  }

  lemma ChainedTail(bs: seq<Block>, d: nat)
    requires Chained(bs) && d <= |bs|
    ensures Chained(bs[d..])
  {
    forall i: nat | i + 1 < |bs[d..]| ensures Linked(bs[d..], i) {
      assert Linked(bs, d + i);
    }
  }

  lemma {:induction false} Ordered(bs: seq<Block>, base: nat, i: nat, j: nat)
    requires Tiles(bs, base) && i < j < |bs|
    ensures bs[i].End() <= bs[j].addr
    decreases j
  {
    assert Linked(bs, j - 1);
    if j > i + 1 { Ordered(bs, base, i, j - 1); }
  }

  // ----- alignment arithmetic, with the 64-bit wrap -----

  /** A 64-bit sum of two 64-bit values. */
  function Wrap(t: nat): nat { if t < WORD64 then t else t - WORD64 }

  /** The largest multiple of a not above t. */
  function RoundDown(t: nat, a: nat): nat
    requires a > 0
  {
    if t < a then 0 else a + RoundDown(t - a, a)
  }

  /** The next multiple of a from n on, unless the sum wraps. */
  function AlignSize(n: nat, a: nat): nat
    requires a > 0
  {
    RoundDown(Wrap(n + (a - 1)), a)
  }

  ghost predicate Multiple(t: nat, a: nat)
    requires a > 0
  {
    t == 0 || (t >= a && Multiple(t - a, a))
  }

  lemma {:induction false} RoundDownBounds(t: nat, a: nat)
    requires a > 0
    ensures RoundDown(t, a) <= t < RoundDown(t, a) + a && Multiple(RoundDown(t, a), a)
    decreases t
  {
    if t >= a { RoundDownBounds(t - a, a); }
  }

  lemma {:induction false} RoundDownBy8(t: nat, e: nat)
    requires e > 0
    ensures RoundDown(t, 8 * e) % 8 == 0
    decreases t
  {
    if t >= 8 * e {
      RoundDownBy8(t - 8 * e, e);
      EightMore(RoundDown(t - 8 * e, 8 * e), e);
    }
  }

  lemma EightMore(r: nat, e: nat)
    requires r % 8 == 0
    ensures (r + 8 * e) % 8 == 0
  {
    RemainderUnique(r + 8 * e, 8, r / 8 + e, 0);
  }

  lemma {:induction false} RoundDownIs(t: nat, a: nat)
    requires a > 0
    ensures RoundDown(t, a) == t - t % a
    decreases t
  {
    if t < a {
      RemainderUnique(t, a, 0, t);
    } else {
      RoundDownIs(t - a, a);
      AddDivisor(t - a, a);
    }
  }

  lemma AddDivisor(t: nat, a: nat)
    requires a > 0
    ensures (t + a) % a == t % a
  {
    Euclid(t, a);
    RemainderUnique(t + a, a, t / a + 1, t % a);
  }

  /** For powers of two, t & ~(a - 1) rounds down to a multiple. */
  lemma MaskIsRoundDown(t: nat, a: nat)
    requires PowerOfTwo(a) && a <= WORD64 && t < WORD64
    ensures MaskDown(t, a) == RoundDown(t, a)
  {
    MaskClears(t, a);
    RoundDownIs(t, a);
  }

  /** align_size: (n + (a - 1)) & ~(a - 1) on 64-bit words. */
  function AlignMask(n: nat, a: nat): nat
    requires 0 < a <= WORD64
  {
    MaskDown(Wrap(n + (a - 1)), a)
  }

  lemma AlignMaskIs(n: nat, a: nat)
    requires PowerOfTwo(a) && a <= WORD64 && n < WORD64
    ensures AlignMask(n, a) == AlignSize(n, a)
  {
    MaskIsRoundDown(Wrap(n + (a - 1)), a);
  }

  lemma {:induction false} MultipleModZero(t: nat, a: nat)
    requires a > 0 && Multiple(t, a)
    ensures t % a == 0
    decreases t
  {
    if t == 0 {
      RemainderUnique(0, a, 0, 0);
    } else {
      MultipleModZero(t - a, a);
      AddDivisor(t - a, a);
    }
  }

  /** Rounding a size or an address up to the alignment, when the sum does not wrap. */
  lemma AlignUp(n: nat, a: nat)
    requires a > 0 && n + a <= WORD64
    ensures n <= AlignSize(n, a) < n + a && Multiple(AlignSize(n, a), a)
    ensures a % 8 == 0 ==> AlignSize(n, a) % 8 == 0
  {
    RoundDownBounds(n + (a - 1), a);
    if a % 8 == 0 { RoundDownBy8(n + (a - 1), a / 8); }
  }

  lemma {:induction false} MultipleOf8(a: nat)
    requires PowerOfTwo(a) && a >= 8
    ensures a % 8 == 0
  {
    var h := a / 2;
    assert a == 2 * h && PowerOfTwo(h);
    if h >= 8 {
      MultipleOf8(h);
      var e := h / 8;
      assert a == 8 * (2 * e);
    } else {
      var q := h / 2;
      assert h == 2 * q && PowerOfTwo(q);
    }
  }

  // ----- allocation -----

  /** Bytes between the start of a block's payload and the next aligned address. */
  function Padding(b: Block, a: nat): nat
    requires a > 0 && b.Start() + a <= WORD64
  {
    AlignUp(b.Start(), a);
    AlignSize(b.Start(), a) - b.Start()
  }

  /** size + alignment_padding, for an already rounded size. */
  function Need(b: Block, size: nat, a: nat): nat
    requires a > 0 && b.Start() + a <= WORD64
  {
    Wrap(size + Padding(b, a))
  }

  predicate CanHold(b: Block, size: nat, a: nat)
    requires a > 0 && b.Start() + a <= WORD64
  {
    b.free && b.size >= Need(b, size, a)
  }

  /** Every address in the pool can be rounded up without wrapping. */
  ghost predicate Addressable(bs: seq<Block>, a: nat) {
    a > 0 && forall i :: 0 <= i < |bs| ==> bs[i].Start() + a <= WORD64
  }

  lemma TilesAddressable(bs: seq<Block>, base: nat, a: nat)
    requires Tiles(bs, base) && a > 0 && base + POOL_SIZE + a <= WORD64
    ensures Addressable(bs, a)
  {
    forall i | 0 <= i < |bs| ensures bs[i].End() <= base + POOL_SIZE {
      if i < |bs| - 1 { Ordered(bs, base, i, |bs| - 1); }
    }
  }

  /** Position of the first block at or after `from` that can hold the request; |bs| if none. */
  ghost function FirstFit(bs: seq<Block>, size: nat, a: nat, from: nat): (k: nat)
    requires Addressable(bs, a) && from <= |bs|
    ensures from <= k <= |bs|
    ensures forall j :: from <= j < k ==> !CanHold(bs[j], size, a)
    ensures k < |bs| ==> CanHold(bs[k], size, a)
    decreases |bs| - from
  {
    if from == |bs| || CanHold(bs[from], size, a) then from else FirstFit(bs, size, a, from + 1)
  }

  /** First fit is exact: it fails only when nothing fits, and otherwise picks the lowest address that does. */
  lemma FirstFitIsLowest(bs: seq<Block>, base: nat, size: nat, a: nat)
    requires Tiles(bs, base) && Addressable(bs, a)
    ensures FirstFit(bs, size, a, 0) == |bs| <==> forall j :: 0 <= j < |bs| ==> !CanHold(bs[j], size, a)
    ensures FirstFit(bs, size, a, 0) < |bs| ==>
              forall j :: 0 <= j < |bs| && CanHold(bs[j], size, a) ==> bs[FirstFit(bs, size, a, 0)].addr <= bs[j].addr
  {
    var k := FirstFit(bs, size, a, 0);
    forall j | 0 <= j < |bs| && k < |bs| && CanHold(bs[j], size, a) ensures bs[k].addr <= bs[j].addr {
      if k < j { Ordered(bs, base, k, j); }
    }
  }

  /** The block list after block k takes n bytes; the rest is split off if it can hold a header. */
  ghost function Take(bs: seq<Block>, k: nat, n: nat): seq<Block>
    requires k < |bs| && n <= bs[k].size
  {
    var b := bs[k];
    if b.size > n + HEADER then
      bs[..k] + [Block(b.addr, n, false), Block(b.addr + HEADER + n, b.size - n - HEADER, true)] + bs[k + 1..]
    else bs[k := b.(free := false)]
  }

  lemma TakeTiles(bs: seq<Block>, base: nat, k: nat, n: nat)
    requires Tiles(bs, base) && k < |bs| && n <= bs[k].size
    ensures Tiles(Take(bs, k, n), base)
    ensures Aligned8(bs) && n % 8 == 0 ==> Aligned8(Take(bs, k, n))
  {
    if Aligned8(bs) && n % 8 == 0 { TakeAligned(bs, k, n); }
    var r := Take(bs, k, n);
    if |r| == |bs| + 1 {
      forall i: nat | i + 1 < |r| ensures Linked(r, i) {
        if i > k + 1 {
          assert Linked(bs, i - 1);
        } else if i < k {
          assert Linked(bs, i);
        } else if k < i {
          assert Linked(bs, k);
        }
      }
    } else {
      forall i: nat | i + 1 < |r| ensures Linked(r, i) {
        assert Linked(bs, i);
      }
    }
  }

  lemma TakeAligned(bs: seq<Block>, k: nat, n: nat)
    requires k < |bs| && n <= bs[k].size && Aligned8(bs) && n % 8 == 0
    ensures Aligned8(Take(bs, k, n))
  {
    var r, b := Take(bs, k, n), bs[k];
    SplitOf8(b.addr, b.size, n);
    forall i | 0 <= i < |r| ensures r[i].addr % 8 == 0 && r[i].size % 8 == 0 {
      if i > k + 1 && |r| > |bs| { assert r[i] == bs[i - 1]; }
    }
  }

  lemma SplitOf8(addr: nat, size: nat, n: nat)
    requires addr % 8 == 0 && size % 8 == 0 && n % 8 == 0
    ensures (addr + HEADER + n) % 8 == 0 && (size - n - HEADER) % 8 == 0
  {
    var a, s, e := addr / 8, size / 8, n / 8;
    RemainderUnique(addr + HEADER + n, 8, a + 3 + e, 0);
    RemainderUnique(size - n - HEADER, 8, s - e - 3, 0);
  }

  /** Taking block k leaves the used blocks in place and adds one. */
  lemma TakeUsed(bs: seq<Block>, base: nat, k: nat, n: nat, b: Block)
    requires Tiles(bs, base) && k < |bs| && bs[k].free && n <= bs[k].size && !b.free
    ensures b in Take(bs, k, n) <==> b in bs || b == Take(bs, k, n)[k]
    ensures !Take(bs, k, n)[k].free && Take(bs, k, n)[k] !in bs
    ensures Take(bs, k, n)[k].addr == bs[k].addr && n <= Take(bs, k, n)[k].size
  {
    var r := Take(bs, k, n);
    assert bs == bs[..k] + [bs[k]] + bs[k + 1..];
    assert r == bs[..k] + r[k..|r| - (|bs| - k - 1)] + bs[k + 1..];
    forall i | 0 <= i < |bs| ensures bs[i] != r[k] {
      if i < k { Ordered(bs, base, i, k); } else if k < i { Ordered(bs, base, k, i); }
    }
  }

  // ----- freeing -----

  /** The single left-to-right merging pass: a merged block is not looked at again. */
  ghost function Coalesce(bs: seq<Block>): seq<Block> {
    if |bs| < 2 then bs
    else if bs[0].free && bs[1].free then
      [Block(bs[0].addr, bs[0].size + bs[1].size + HEADER, true)] + Coalesce(bs[2..])
    else [bs[0]] + Coalesce(bs[1..])
  }

  ghost function Release(bs: seq<Block>, k: nat): seq<Block>
    requires k < |bs|
  {
    Coalesce(bs[k := bs[k].(free := true)])
  }

  lemma {:induction false} CoalesceTiles(bs: seq<Block>)
    requires bs != [] && Chained(bs)
    ensures var r := Coalesce(bs);
            && r != [] && r[0].addr == bs[0].addr && r[|r| - 1].End() == bs[|bs| - 1].End()
            && Chained(r)
  {
    if |bs| >= 2 {
      assert Linked(bs, 0);
      var d := if bs[0].free && bs[1].free then 2 else 1;
      if d < |bs| {
        assert Linked(bs, d - 1);
        ChainedTail(bs, d);
        CoalesceTiles(bs[d..]);
        var r, t := Coalesce(bs), Coalesce(bs[d..]);
        assert r[1..] == t;
        forall i: nat | i + 1 < |r| ensures Linked(r, i) {
          if i > 0 { assert Linked(t, i - 1); }
        }
      }
    }
  }

  lemma {:induction false} CoalesceAligned(bs: seq<Block>)
    requires Aligned8(bs)
    ensures Aligned8(Coalesce(bs))
  {
    if |bs| >= 2 && bs[0].free && bs[1].free {
      CoalesceAligned(bs[2..]);
      MergeOf8(bs[0].size, bs[1].size);
    } else if |bs| >= 2 {
      CoalesceAligned(bs[1..]);
    }
  }

  lemma MergeOf8(a: nat, b: nat)
    requires a % 8 == 0 && b % 8 == 0
    ensures (a + b + HEADER) % 8 == 0
  {
    RemainderUnique(a + b + HEADER, 8, a / 8 + b / 8 + 3, 0);
  }

  /** Merging touches free blocks only. */
  lemma {:induction false} CoalesceUsed(bs: seq<Block>, b: Block)
    requires !b.free
    ensures b in Coalesce(bs) <==> b in bs
  {
    if |bs| >= 2 {
      if bs[0].free && bs[1].free {
        CoalesceUsed(bs[2..], b);
        assert bs == [bs[0], bs[1]] + bs[2..];
      } else {
        CoalesceUsed(bs[1..], b);
        assert bs == [bs[0]] + bs[1..];
      }
    }
  }

  ghost predicate FreeRun(bs: seq<Block>, i: nat, n: nat)
  {
    i + n <= |bs| && forall j :: i <= j < i + n ==> bs[j].free
  }

  ghost predicate HasFreeRun(bs: seq<Block>, n: nat) {
    exists i: nat :: FreeRun(bs, i, n)
  }

  lemma FreeRunTail(bs: seq<Block>, n: nat, d: nat)
    requires d <= |bs| && HasFreeRun(bs[d..], n)
    ensures HasFreeRun(bs, n)
  {
    var i: nat :| FreeRun(bs[d..], i, n);
    assert forall j :: d + i <= j < d + i + n ==> bs[j] == bs[d..][j - d];
    assert FreeRun(bs, d + i, n);
  }

  lemma FreeRunDrop(bs: seq<Block>, n: nat, i: nat, d: nat)
    requires FreeRun(bs, i, n) && d <= i
    ensures HasFreeRun(bs[d..], n)
  {
    assert FreeRun(bs[d..], i - d, n);
  }

  /** One pass leaves two neighbouring free blocks exactly when three met before it. */
  lemma {:induction false} CoalesceComplete(bs: seq<Block>)
    ensures HasFreeRun(Coalesce(bs), 2) <==> HasFreeRun(bs, 3)
  {
    var r := Coalesce(bs);
    if |bs| < 2 {
    } else if bs[0].free && bs[1].free {
      var t := bs[2..];
      CoalesceComplete(t);
      assert r[1..] == Coalesce(t);
      if HasFreeRun(r, 2) {
        var i: nat :| FreeRun(r, i, 2);
        if i == 0 {
          assert r[1].free && t[0].free;
          assert FreeRun(bs, 0, 3);
        } else {
          FreeRunDrop(r, 2, i, 1);
          FreeRunTail(bs, 3, 2);
        }
      }
      if HasFreeRun(bs, 3) {
        var i: nat :| FreeRun(bs, i, 3);
        if i < 2 {
          assert bs[2].free && bs[2] == t[0];
          assert FreeRun(r, 0, 2);
        } else {
          FreeRunDrop(bs, 3, i, 2);
          FreeRunTail(r, 2, 1);
        }
      }
    } else {
      var t := bs[1..];
      CoalesceComplete(t);
      assert r[1..] == Coalesce(t);
      assert r[0] == bs[0] && r[1] == Coalesce(t)[0];
      assert r[1].free <==> t[0].free;
      if HasFreeRun(r, 2) {
        var i: nat :| FreeRun(r, i, 2);
        if i == 0 {
          assert false;
        } else {
          FreeRunDrop(r, 2, i, 1);
          FreeRunTail(bs, 3, 1);
        }
      }
      if HasFreeRun(bs, 3) {
        var i: nat :| FreeRun(bs, i, 3);
        assert i > 0;
        FreeRunDrop(bs, 3, i, 1);
        FreeRunTail(r, 2, 1);
      }
    }
  }

  /** From a list without neighbouring free blocks, freeing block k leaves none
      either, unless both neighbours of k were free. */
  lemma ReleaseComplete(bs: seq<Block>, k: nat)
    requires k < |bs| && !bs[k].free && !HasFreeRun(bs, 2)
    ensures HasFreeRun(Release(bs, k), 2) <==> 0 < k < |bs| - 1 && bs[k - 1].free && bs[k + 1].free
  {
    var m := bs[k := bs[k].(free := true)];
    CoalesceComplete(m);
    if 0 < k < |bs| - 1 && bs[k - 1].free && bs[k + 1].free {
      assert FreeRun(m, k - 1, 3);
    }
    if HasFreeRun(m, 3) {
      var i: nat :| FreeRun(m, i, 3);
      assert m[i].free && m[i + 1].free && m[i + 2].free;
      assert !FreeRun(bs, i, 2) && !FreeRun(bs, i + 1, 2);
    }
  }

  /** A rounded size is at least the size asked for exactly when the sum did not wrap;
      otherwise it is zero. */
  lemma RoundingIsHonest(n: nat, a: nat)
    requires PowerOfTwo(a) && n < WORD64 && a <= WORD64
    ensures AlignMask(n, a) >= n <==> n + a <= WORD64
    ensures n + a > WORD64 ==> AlignMask(n, a) == 0
  {
    AlignMaskIs(n, a);
    if n + a <= WORD64 { AlignUp(n, a); }
  }

  /** Such a request asks for more than the pool holds, and is granted as soon as some free
      block covers the padding: for alignment 8, as soon as any block is free. */
  lemma WrappedIsGranted(bs: seq<Block>, base: nat, n: nat, a: nat)
    requires Tiles(bs, base) && PowerOfTwo(a) && base + POOL_SIZE + a <= WORD64
    requires n < WORD64 && n + a > WORD64
    ensures n > POOL_SIZE && Addressable(bs, a)
    ensures FirstFit(bs, AlignSize(n, a), a, 0) < |bs| <==>
              exists j :: 0 <= j < |bs| && bs[j].free && bs[j].size >= Padding(bs[j], a)
    ensures a == 8 && Aligned8(bs) ==>
              (FirstFit(bs, AlignSize(n, a), a, 0) < |bs| <==> exists j :: 0 <= j < |bs| && bs[j].free)
  {
    TilesAddressable(bs, base, a);
    AlignMaskIs(n, a);
    RoundingIsHonest(n, a);
    forall j | 0 <= j < |bs|
      ensures CanHold(bs[j], 0, a) <==> bs[j].free && bs[j].size >= Padding(bs[j], a)
      ensures a == 8 && Aligned8(bs) ==> Padding(bs[j], a) == 0
    {
      HoldsNothing(bs[j], a);
    }
  }

  lemma HoldsNothing(b: Block, a: nat)
    requires a > 0 && b.Start() + a <= WORD64
    ensures CanHold(b, 0, a) <==> b.free && b.size >= Padding(b, a)
    ensures a == 8 && b.addr % 8 == 0 ==> Padding(b, a) == 0
  {
    AlignUp(b.Start(), a);
    if a == 8 && b.addr % 8 == 0 {
      EightMore(b.addr, 3);
      EightByteFacts(0, b.Start(), AlignSize(b.Start(), a));
    }
  }

  // ----- runs -----

  /** What the caller of a successful allocation holds. */
  datatype Live = Live(size: nat, align: nat, block: Block)

  datatype Pool = Pool(blocks: seq<Block>, live: map<nat, Live>)

  ghost function IndexAt(bs: seq<Block>, addr: int, from: nat): (k: nat)
    requires from <= |bs|
    ensures from <= k <= |bs|
    ensures k < |bs| ==> bs[k].addr == addr
    ensures forall j :: from <= j < k ==> bs[j].addr != addr
    decreases |bs| - from
  {
    if from == |bs| || bs[from].addr == addr then from else IndexAt(bs, addr, from + 1)
  }

  ghost function Malloc(pool: Pool, size: nat, a: nat): (Pool, nat)
    requires Addressable(pool.blocks, a)
  {
    var n := AlignSize(size, a);
    var k := FirstFit(pool.blocks, n, a, 0);
    if k == |pool.blocks| then (pool, 0)
    else
      var b := pool.blocks[k];
      var ptr := AlignSize(b.Start(), a);
      var bs := Take(pool.blocks, k, Need(b, n, a));
      (Pool(bs, pool.live[ptr := Live(size, a, bs[k])]), ptr)
  }

  ghost function Free(pool: Pool, ptr: nat): Pool {
    var k := IndexAt(pool.blocks, ptr - HEADER, 0);
    if ptr == 0 || k == |pool.blocks| then pool
    else Pool(Release(pool.blocks, k), pool.live - {ptr})
  }

  ghost predicate Owns(l: Live, ptr: nat) {
    && !l.block.free
    && l.block.Start() <= ptr && ptr + l.size <= l.block.End()
    && l.align > 0 && Multiple(ptr, l.align)
    && (l.align == 8 ==> ptr == l.block.Start())
  }

  /** Every live pointer lies in a used block of its own, and every used block has one. */
  ghost predicate Owned(live: map<nat, Live>, bs: seq<Block>) {
    && (forall p :: p in live ==> Owns(live[p], p) && live[p].block in bs)
    && (forall p, q :: p in live && q in live && p != q ==> live[p].block != live[q].block)
    && (forall b :: b in bs && !b.free ==> exists p :: p in live && live[p].block == b)
  }

  ghost predicate Inv(pool: Pool, base: nat) {
    Tiles(pool.blocks, base) && Aligned8(pool.blocks) && Owned(pool.live, pool.blocks)
  }

  lemma OwnMore(live: map<nat, Live>, bs: seq<Block>, bs': seq<Block>, ptr: nat, l: Live)
    requires Owned(live, bs) && Owns(l, ptr) && ptr !in live && l.block !in bs
    requires forall b: Block :: !b.free ==> (b in bs' <==> b in bs || b == l.block)
    ensures Owned(live[ptr := l], bs')
  {
    var live' := live[ptr := l];
    forall b | b in bs' && !b.free ensures exists p :: p in live' && live'[p].block == b {
      if b == l.block {
        assert live'[ptr].block == b;
      } else {
        var p :| p in live && live[p].block == b;
        assert live'[p].block == b;
      }
    }
  }

  lemma OwnLess(live: map<nat, Live>, bs: seq<Block>, bs': seq<Block>, ptr: nat)
    requires Owned(live, bs) && ptr in live
    requires forall b: Block :: !b.free ==> (b in bs' <==> b in bs && b != live[ptr].block)
    ensures Owned(live - {ptr}, bs')
  {
    var live' := live - {ptr};
    forall b | b in bs' && !b.free ensures exists p :: p in live' && live'[p].block == b {
      var p :| p in live && live[p].block == b;
      assert p in live' && live'[p].block == b;
    }
  }

  ghost predicate GoodRequest(base: nat, size: nat, a: nat) {
    PowerOfTwo(a) && a >= 8 && base + POOL_SIZE + a <= WORD64 && size + a <= WORD64
  }

  /** Geometry of the block a request gets. */
  lemma RequestGeometry(b: Block, size: nat, a: nat)
    requires PowerOfTwo(a) && a >= 8 && b.Start() + a <= WORD64 && size + a <= WORD64 && b.addr % 8 == 0
    ensures size <= AlignSize(size, a) && Need(b, AlignSize(size, a), a) % 8 == 0
    ensures AlignSize(b.Start(), a) + size <= b.Start() + Need(b, AlignSize(size, a), a)
    ensures b.Start() <= AlignSize(b.Start(), a) && Multiple(AlignSize(b.Start(), a), a)
    ensures a == 8 ==> AlignSize(b.Start(), a) == b.Start()
  {
    MultipleOf8(a);
    RoundedFits(size, a);
    RequestRounding(b, size, a);
  }

  /** A size that rounds without wrapping leaves room for any padding, since 2^64 is a multiple of a. */
  lemma RoundedFits(n: nat, a: nat)
    requires PowerOfTwo(a) && n + a <= WORD64
    ensures AlignSize(n, a) + a <= WORD64
  {
    AlignUp(n, a);
    WordIsMultiple(a);
    MultipleModZero(AlignSize(n, a), a);
    NextMultipleFits(AlignSize(n, a), WORD64, a);
  }

  lemma WordIsMultiple(a: nat)
    requires PowerOfTwo(a) && a <= WORD64
    ensures WORD64 % a == 0
  {
    WordIsPowerTimes(a, Log2(a));
  }

  lemma WordIsPowerTimes(a: nat, k: nat)
    requires a == Pow2(k) && a <= WORD64
    ensures WORD64 % a == 0
  {
    Word64IsPower();
    if k > 64 { PowerLess(64, k); }
    var rest := Pow2(64 - k);
    Pow2Sum(64 - k, k);
    RemainderUnique(WORD64, a, rest, 0);
  }

  lemma NextMultipleFits(x: nat, y: nat, a: nat)
    requires a > 0 && x % a == 0 && y % a == 0 && x < y
    ensures x + a <= y
  {
    Euclid(x, a);
    Euclid(y, a);
    var d := y / a - x / a;
    assert y - x == d * a by { assert y / a * a - x / a * a == d * a; }
    MultipleGrows(d, a);
  }

  lemma RequestRounding(b: Block, size: nat, a: nat)
    requires a > 0 && a % 8 == 0 && b.Start() + a <= WORD64 && size + a <= WORD64 && b.addr % 8 == 0
    requires AlignSize(size, a) + a <= WORD64
    ensures size <= AlignSize(size, a) && Need(b, AlignSize(size, a), a) % 8 == 0
    ensures AlignSize(b.Start(), a) + size <= b.Start() + Need(b, AlignSize(size, a), a)
    ensures b.Start() <= AlignSize(b.Start(), a) && Multiple(AlignSize(b.Start(), a), a)
    ensures a == 8 ==> AlignSize(b.Start(), a) == b.Start()
  {
    AlignUp(size, a);
    AlignUp(b.Start(), a);
    EightMore(b.addr, 3);
    EightByteFacts(AlignSize(size, a), b.Start(), AlignSize(b.Start(), a));
    assert Need(b, AlignSize(size, a), a) == AlignSize(size, a) + Padding(b, a);
  }

  lemma EightByteFacts(n: int, s: int, t: int)
    requires n % 8 == 0 && s % 8 == 0 && t % 8 == 0
    ensures (n + (t - s)) % 8 == 0
    ensures s <= t < s + 8 ==> s == t
  {
  }

  /** The new owner a request creates in block k. */
  lemma NewOwner(bs: seq<Block>, base: nat, k: nat, size: nat, a: nat)
    requires Tiles(bs, base) && Aligned8(bs) && GoodRequest(base, size, a) && Addressable(bs, a)
    requires k < |bs| && CanHold(bs[k], AlignSize(size, a), a)
    ensures var bs' := Take(bs, k, Need(bs[k], AlignSize(size, a), a));
            && Tiles(bs', base) && Aligned8(bs') && bs'[k] !in bs
            && Owns(Live(size, a, bs'[k]), AlignSize(bs[k].Start(), a))
            && forall b: Block :: !b.free ==> (b in bs' <==> b in bs || b == bs'[k])
  {
    var n := Need(bs[k], AlignSize(size, a), a);
    RequestGeometry(bs[k], size, a);
    TakeTiles(bs, base, k, n);
    var bs' := Take(bs, k, n);
    TakeUsed(bs, base, k, n, Block(0, 0, false));
    forall b: Block | !b.free ensures b in bs' <==> b in bs || b == bs'[k] {
      TakeUsed(bs, base, k, n, b);
    }
  }

  lemma MallocKeepsInv(pool: Pool, base: nat, size: nat, a: nat)
    requires Inv(pool, base) && GoodRequest(base, size, a)
    ensures Addressable(pool.blocks, a) && Inv(Malloc(pool, size, a).0, base)
  {
    TilesAddressable(pool.blocks, base, a);
    var bs, live := pool.blocks, pool.live;
    var k := FirstFit(bs, AlignSize(size, a), a, 0);
    if k < |bs| {
      NewOwner(bs, base, k, size, a);
      var bs' := Take(bs, k, Need(bs[k], AlignSize(size, a), a));
      var ptr := AlignSize(bs[k].Start(), a);
      forall p | p in live ensures p != ptr {
        assert live[p].block in bs' && bs'[k] in bs';
        SeparateBlocks(bs', base, live[p].block, bs'[k]);
      }
      OwnMore(live, bs, bs', ptr, Live(size, a, bs'[k]));
    }
  }

  // ----- allocation in numbers -----

  ghost function RoundUp(x: nat, a: nat): nat
    requires a > 0
  {
    (x + a - 1) / a * a
  }

  lemma AlignSizeIs(n: nat, a: nat)
    requires a > 0 && n + a <= WORD64
    ensures AlignSize(n, a) == RoundUp(n, a)
  {
    RoundDownIs(n + (a - 1), a);
    Euclid(n + (a - 1), a);
  }

  /** The rounded request fits between the aligned address and the end of the block. */
  ghost predicate Holds(b: Block, n: nat, a: nat)
    requires a > 0
  {
    b.free && RoundUp(b.addr + 24, a) + RoundUp(n, a) <= b.addr + 24 + b.size
  }

  lemma HoldsIff(b: Block, n: nat, a: nat)
    requires PowerOfTwo(a) && n + a <= WORD64 && b.Start() + a <= WORD64
    ensures CanHold(b, AlignSize(n, a), a) <==> Holds(b, n, a)
    ensures b.Start() + Need(b, AlignSize(n, a), a) == RoundUp(b.addr + 24, a) + RoundUp(n, a)
    ensures AlignSize(b.Start(), a) == RoundUp(b.addr + 24, a)
  {
    RoundedFits(n, a);
    AlignSizeIs(n, a);
    AlignSizeIs(b.Start(), a);
    PaddedSize(b, AlignSize(n, a), a);
  }

  lemma PaddedSize(b: Block, size: nat, a: nat)
    requires a > 0 && b.Start() + a <= WORD64 && size + a <= WORD64
    ensures b.Start() + Need(b, size, a) == AlignSize(b.Start(), a) + size
  {
    AlignUp(b.Start(), a);
  }

  /** Block k taken up to `end`: what is left becomes a free block if it is larger than a header. */
  ghost predicate TakenUpTo(bs: seq<Block>, bs': seq<Block>, k: nat, end: nat)
    requires k < |bs| && bs[k].addr + 24 <= end <= bs[k].addr + 24 + bs[k].size
  {
    var b := bs[k];
    var rest := b.addr + 24 + b.size - end;
    if rest > 24
    then bs' == bs[..k] + [Block(b.addr, end - b.addr - 24, false), Block(end, rest - 24, true)] + bs[k + 1..]
    else bs' == bs[k := Block(b.addr, b.size, false)]
  }

  /** my_malloc in numbers: NULL exactly when no block holds the request; else the aligned address
      in the first one that does, which is taken just as far as needed. */
  lemma MallocExact(pool: Pool, base: nat, n: nat, a: nat)
    requires Inv(pool, base) && GoodRequest(base, n, a) && base > 0
    ensures Addressable(pool.blocks, a)
    ensures var (pool', ptr) := Malloc(pool, n, a);
            && (ptr == 0 <==> forall j :: 0 <= j < |pool.blocks| ==> !Holds(pool.blocks[j], n, a))
            && (ptr == 0 ==> pool' == pool)
            && (ptr != 0 ==> exists k: nat :: k < |pool.blocks| && Grants(pool, pool', ptr, n, a, k))
  {
    var bs := pool.blocks;
    TilesAddressable(bs, base, a);
    FitsAgree(bs, n, a);
    var k := FirstFit(bs, AlignSize(n, a), a, 0);
    if k < |bs| {
      HoldsIff(bs[k], n, a);
      GrantsFirst(pool, n, a, k);
    }
  }

  lemma FitsAgree(bs: seq<Block>, n: nat, a: nat)
    requires PowerOfTwo(a) && n + a <= WORD64 && Addressable(bs, a)
    ensures forall j :: 0 <= j < |bs| ==> (CanHold(bs[j], AlignSize(n, a), a) <==> Holds(bs[j], n, a))
  {
    forall j | 0 <= j < |bs| ensures CanHold(bs[j], AlignSize(n, a), a) <==> Holds(bs[j], n, a) {
      HoldsIff(bs[j], n, a);
    }
  }

  lemma GrantsFirst(pool: Pool, n: nat, a: nat, k: nat)
    requires Addressable(pool.blocks, a) && n + a <= WORD64
    requires k < |pool.blocks| && k == FirstFit(pool.blocks, AlignSize(n, a), a, 0)
    requires forall j :: 0 <= j < |pool.blocks| ==>
               (CanHold(pool.blocks[j], AlignSize(n, a), a) <==> Holds(pool.blocks[j], n, a))
    requires var b := pool.blocks[k];
             && b.Start() + Need(b, AlignSize(n, a), a) == RoundUp(b.addr + 24, a) + RoundUp(n, a)
             && AlignSize(b.Start(), a) == RoundUp(b.addr + 24, a)
    ensures Grants(pool, Malloc(pool, n, a).0, Malloc(pool, n, a).1, n, a, k) && Malloc(pool, n, a).1 != 0
  {
    var b := pool.blocks[k];
    AlignUp(b.Start(), a);
    TakeUpTo(pool.blocks, k, Need(b, AlignSize(n, a), a));
  }

  lemma TakeUpTo(bs: seq<Block>, k: nat, n: nat)
    requires k < |bs| && n <= bs[k].size
    ensures TakenUpTo(bs, Take(bs, k, n), k, bs[k].addr + 24 + n) && k < |Take(bs, k, n)|
  {
  }

  ghost predicate Grants(pool: Pool, pool': Pool, ptr: nat, n: nat, a: nat, k: nat)
    requires a > 0 && k < |pool.blocks|
  {
    var b := pool.blocks[k];
    && Holds(b, n, a) && (forall j :: 0 <= j < k ==> !Holds(pool.blocks[j], n, a))
    && ptr == RoundUp(b.addr + 24, a) && b.addr + 24 <= ptr
    && TakenUpTo(pool.blocks, pool'.blocks, k, ptr + RoundUp(n, a))
    && k < |pool'.blocks| && pool'.live == pool.live[ptr := Live(n, a, pool'.blocks[k])]
  }

  /** The pool before the first call: one free block in 2 MB. */
  lemma FreshInNumbers(base: nat)
    ensures Fresh(base) == Pool([Block(base, 0x1F_FFE8, true)], map[])
  {
  }

  /** Two different blocks of a tiling do not touch. */
  lemma SeparateBlocks(bs: seq<Block>, base: nat, b: Block, c: Block)
    requires Tiles(bs, base) && b in bs && c in bs && b != c
    ensures b.End() < c.Start() || c.End() < b.Start()
    ensures b.End() <= c.addr || c.End() <= b.addr
  {
    var i :| 0 <= i < |bs| && bs[i] == b;
    var j :| 0 <= j < |bs| && bs[j] == c;
    if i < j { Ordered(bs, base, i, j); } else { Ordered(bs, base, j, i); }
  }

  /** Freeing block k: still tiled, and exactly that used block is gone. */
  lemma ReleaseEffect(bs: seq<Block>, base: nat, k: nat)
    requires Tiles(bs, base) && Aligned8(bs) && k < |bs|
    ensures Tiles(Release(bs, k), base) && Aligned8(Release(bs, k))
    ensures forall c: Block :: !c.free ==> (c in Release(bs, k) <==> c in bs && c != bs[k])
  {
    var m := bs[k := bs[k].(free := true)];
    forall i: nat | i + 1 < |m| ensures Linked(m, i) {
      assert Linked(bs, i);
    }
    CoalesceTiles(m);
    CoalesceAligned(m);
    forall c: Block | !c.free ensures c in Release(bs, k) <==> c in bs && c != bs[k] {
      CoalesceUsed(m, c);
      ReplaceOne(bs, base, k, c);
    }
  }

  lemma ReplaceOne(bs: seq<Block>, base: nat, k: nat, c: Block)
    requires Tiles(bs, base) && k < |bs| && !c.free
    ensures c in bs[k := bs[k].(free := true)] <==> c in bs && c != bs[k]
  {
    var m := bs[k := bs[k].(free := true)];
    if c in bs && c != bs[k] {
      var i :| 0 <= i < |bs| && bs[i] == c;
      assert m[i] == c;
    }
    if c in m {
      var i :| 0 <= i < |m| && m[i] == c;
      assert i != k && bs[i] == c;
      if i < k { Ordered(bs, base, i, k); } else { Ordered(bs, base, k, i); }
    }
  }

  /** The header my_free computes for an 8-aligned pointer is its block's header. */
  lemma FreeFindsBlock(pool: Pool, base: nat, ptr: nat)
    requires Inv(pool, base) && ptr in pool.live && pool.live[ptr].align == 8
    ensures var k := IndexAt(pool.blocks, ptr - HEADER, 0);
            k < |pool.blocks| && pool.blocks[k] == pool.live[ptr].block && ptr != 0
  {
    assert Owns(pool.live[ptr], ptr);
    var i :| 0 <= i < |pool.blocks| && pool.blocks[i] == pool.live[ptr].block;
    IndexOf(pool.blocks, base, i);
  }

  lemma IndexOf(bs: seq<Block>, base: nat, i: nat)
    requires Tiles(bs, base) && i < |bs|
    ensures IndexAt(bs, bs[i].addr, 0) == i
  {
    var k := IndexAt(bs, bs[i].addr, 0);
    if k < i { Ordered(bs, base, k, i); }
  }

  lemma FreeKeepsInv(pool: Pool, base: nat, ptr: nat)
    requires Inv(pool, base) && (ptr == 0 || (ptr in pool.live && pool.live[ptr].align == 8))
    ensures Inv(Free(pool, ptr), base)
  {
    if ptr != 0 {
      FreeFindsBlock(pool, base, ptr);
      var k := IndexAt(pool.blocks, ptr - HEADER, 0);
      ReleaseEffect(pool.blocks, base, k);
      OwnLess(pool.live, pool.blocks, Release(pool.blocks, k), ptr);
    }
  }

  datatype Op = OpMalloc(size: nat, align: nat) | OpFree(ptr: nat)

  ghost predicate Allowed(pool: Pool, base: nat, op: Op) {
    match op
    case OpMalloc(size, a) => GoodRequest(base, size, a)
    case OpFree(ptr) => ptr == 0 || (ptr in pool.live && pool.live[ptr].align == 8)
  }

  ghost function Step(pool: Pool, base: nat, op: Op): Pool
    requires Tiles(pool.blocks, base) && Allowed(pool, base, op)
  {
    match op
    case OpMalloc(size, a) => TilesAddressable(pool.blocks, base, a); Malloc(pool, size, a).0
    case OpFree(ptr) => Free(pool, ptr)
  }

  /** A run of the allocator: the pools after each call. */
  ghost predicate Run(pools: seq<Pool>, ops: seq<Op>, base: nat) {
    && |pools| == |ops| + 1
    && pools[0] == Fresh(base)
    && forall i :: 0 <= i < |ops| ==> StepsTo(pools[i], ops[i], pools[i + 1], base)
  }

  ghost predicate StepsTo(pool: Pool, op: Op, pool': Pool, base: nat) {
    Tiles(pool.blocks, base) && Allowed(pool, base, op) && pool' == Step(pool, base, op)
  }

  ghost function Fresh(base: nat): Pool {
    Pool([Block(base, POOL_SIZE - HEADER, true)], map[])
  }

  lemma StepKeepsInv(pool: Pool, op: Op, pool': Pool, base: nat)
    requires Inv(pool, base) && StepsTo(pool, op, pool', base)
    ensures Inv(pool', base)
  {
    match op
    case OpMalloc(size, a) => MallocKeepsInv(pool, base, size, a);
    case OpFree(ptr) => FreeKeepsInv(pool, base, ptr);
  }

  lemma {:induction false} RunKeepsInv(pools: seq<Pool>, ops: seq<Op>, base: nat, i: nat)
    requires Run(pools, ops, base) && i < |pools| && base % 8 == 0
    ensures Inv(pools[i], base)
  {
    if i > 0 {
      RunKeepsInv(pools, ops, base, i - 1);
      StepKeepsInv(pools[i - 1], ops[i - 1], pools[i - 1 + 1], base);
    }
  }

  lemma PayloadPlace(bs: seq<Block>, base: nat, p: nat, l: Live, b: Block)
    requires Tiles(bs, base) && Owns(l, p) && l.block in bs && b in bs
    ensures base <= p && p + l.size <= base + POOL_SIZE
    ensures p + l.size <= b.addr || b.Start() <= p
  {
    var own := l.block;
    var k :| 0 <= k < |bs| && bs[k] == own;
    if k > 0 { Ordered(bs, base, 0, k); }
    if k < |bs| - 1 { Ordered(bs, base, k, |bs| - 1); }
    if b != own { SeparateBlocks(bs, base, b, own); }
  }

  lemma PayloadsApart(pool: Pool, base: nat, p: nat, q: nat)
    requires Inv(pool, base) && p in pool.live && q in pool.live && p != q
    ensures p + pool.live[p].size <= q || q + pool.live[q].size <= p
  {
    SeparateBlocks(pool.blocks, base, pool.live[p].block, pool.live[q].block);
  }

  ghost predicate PayloadsAligned(live: map<nat, Live>) {
    forall p :: p in live ==> live[p].align > 0 && p % live[p].align == 0
  }

  ghost predicate PayloadsDisjoint(live: map<nat, Live>) {
    forall p, q :: p in live && q in live && p != q ==> p + live[p].size <= q || q + live[q].size <= p
  }

  /** Live payloads lie inside the pool and touch no block header. */
  ghost predicate PayloadsMissHeaders(pool: Pool, base: nat) {
    forall p, b :: p in pool.live && b in pool.blocks ==>
      && base <= p && p + pool.live[p].size <= base + POOL_SIZE
      && (p + pool.live[p].size <= b.addr || b.Start() <= p)
  }

  lemma InvAligned(pool: Pool, base: nat)
    requires Inv(pool, base)
    ensures PayloadsAligned(pool.live)
  {
    forall p | p in pool.live ensures pool.live[p].align > 0 && p % pool.live[p].align == 0 {
      assert Owns(pool.live[p], p);
      MultipleModZero(p, pool.live[p].align);
    }
  }

  lemma InvDisjoint(pool: Pool, base: nat)
    requires Inv(pool, base)
    ensures PayloadsDisjoint(pool.live)
  {
    forall p, q | p in pool.live && q in pool.live && p != q
      ensures p + pool.live[p].size <= q || q + pool.live[q].size <= p
    {
      PayloadsApart(pool, base, p, q);
    }
  }

  lemma InvMissHeaders(pool: Pool, base: nat)
    requires Inv(pool, base)
    ensures PayloadsMissHeaders(pool, base)
  {
    forall p, b | p in pool.live && b in pool.blocks
      ensures base <= p && p + pool.live[p].size <= base + POOL_SIZE
      ensures p + pool.live[p].size <= b.addr || b.Start() <= p
    {
      PayloadPlace(pool.blocks, base, p, pool.live[p], b);
    }
  }

  lemma InvConserves(pool: Pool, base: nat)
    requires Inv(pool, base)
    ensures TotalSize(pool.blocks) == POOL_SIZE
  {
    TilesConserve(pool.blocks, base);
  }

  lemma InvIsSafe(pool: Pool, base: nat)
    requires Inv(pool, base)
    ensures TotalSize(pool.blocks) == POOL_SIZE
    ensures PayloadsAligned(pool.live) && PayloadsDisjoint(pool.live) && PayloadsMissHeaders(pool, base)
  {
    InvConserves(pool, base);
    InvAligned(pool, base);
    InvDisjoint(pool, base);
    InvMissHeaders(pool, base);
  }

  /** Main theorem: at every point of every run the chain tiles the pool from its
      base and the sizes add up to it, live payloads are aligned, disjoint from each
      other and from every header. */
  lemma PoolIsSafe(pools: seq<Pool>, ops: seq<Op>, base: nat, i: nat)
    requires Run(pools, ops, base) && i < |pools| && base % 8 == 0
    ensures Tiles(pools[i].blocks, base) && TotalSize(pools[i].blocks) == POOL_SIZE
    ensures PayloadsAligned(pools[i].live) && PayloadsDisjoint(pools[i].live)
    ensures PayloadsMissHeaders(pools[i], base)
  {
    RunKeepsInv(pools, ops, base, i);
    InvIsSafe(pools[i], base);
  }
}
