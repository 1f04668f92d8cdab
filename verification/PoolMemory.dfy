/** The allocator as the driver runs it: block headers linked through memory. */
module PoolMemory {
  import opened Bits
  import opened BlockPool

  const NULL: nat := 0

  datatype Header = Header(size: nat, free: bool, next: nat)

  /** Memory holds the list: each block's header is at its address and points to the next block. */
  ghost predicate Represents(mem: map<nat, Header>, bs: seq<Block>) {
    forall i :: 0 <= i < |bs| ==> HeaderAt(mem, bs, i)
  }

  ghost predicate HeaderAt(mem: map<nat, Header>, bs: seq<Block>, i: nat)
    requires i < |bs|
  {
    bs[i].addr in mem && mem[bs[i].addr] == Header(bs[i].size, bs[i].free, AddrOf(bs, i + 1))
  }

  ghost function AddrOf(bs: seq<Block>, i: nat): nat {
    if i < |bs| then bs[i].addr else NULL
  }

  lemma AddressesPositive(bs: seq<Block>, base: nat, i: nat)
    requires Tiles(bs, base) && base > 0
    ensures i < |bs| ==> AddrOf(bs, i) != NULL
  {
    if 0 < i < |bs| { Ordered(bs, base, 0, i); }
  }

  /** Writing block k's header leaves every other block's header as it was. */
  lemma UpdateHeader(mem: map<nat, Header>, bs: seq<Block>, bs': seq<Block>, base: nat, k: nat, h: Header)
    requires Tiles(bs, base) && Represents(mem, bs) && k < |bs| && |bs'| == |bs|
    requires bs' == bs[k := Block(bs[k].addr, h.size, h.free)] && h.next == AddrOf(bs, k + 1)
    ensures Represents(mem[bs[k].addr := h], bs')
  {
    var mem' := mem[bs[k].addr := h];
    forall i | 0 <= i < |bs'| ensures HeaderAt(mem', bs', i) {
      assert HeaderAt(mem, bs, i);
      if i < k { Ordered(bs, base, i, k); } else if k < i { Ordered(bs, base, k, i); }
    }
  }

  /** The memory after block k was taken, split or not, represents the new list. */
  lemma TakenInMemory(m: map<nat, Header>, m': map<nat, Header>, bs: seq<Block>, base: nat, k: nat, n: nat)
    requires Tiles(bs, base) && Represents(m, bs) && k < |bs| && n <= bs[k].size
    requires bs[k].addr in m
    requires var split := bs[k].Start() + n;
             m' == if bs[k].size > n + HEADER
                   then m[split := Header(bs[k].size - n - HEADER, true, AddrOf(bs, k + 1))]
                         [bs[k].addr := Header(n, false, split)]
                   else m[bs[k].addr := m[bs[k].addr].(free := false)]
    ensures Represents(m', Take(bs, k, n))
  {
    var r := Take(bs, k, n);
    assert HeaderAt(m, bs, k);
    if bs[k].size > n + HEADER {
      forall i | 0 <= i < |r| ensures HeaderAt(m', r, i) {
        if i < k {
          assert HeaderAt(m, bs, i);
          Ordered(bs, base, i, k);
        } else if i > k + 1 {
          assert HeaderAt(m, bs, i - 1);
          Ordered(bs, base, k, i - 1);
        }
      }
    } else {
      UpdateHeader(m, bs, r, base, k, m[bs[k].addr].(free := false));
    }
  }

  /** Merging block k with its successor in memory. */
  lemma MergedInMemory(m: map<nat, Header>, bs: seq<Block>, base: nat, k: nat)
    requires Tiles(bs, base) && Represents(m, bs) && k + 1 < |bs|
    ensures Represents(m[bs[k].addr := Header(bs[k].size + bs[k + 1].size + HEADER, bs[k].free, AddrOf(bs, k + 2))],
                       MergeAt(bs, k))
  {
    var r := MergeAt(bs, k);
    var m' := m[bs[k].addr := Header(r[k].size, r[k].free, AddrOf(bs, k + 2))];
    forall i | 0 <= i < |r| ensures HeaderAt(m', r, i) {
      if i < k {
        assert HeaderAt(m, bs, i);
        Ordered(bs, base, i, k);
      } else if i > k {
        assert HeaderAt(m, bs, i + 1);
        Ordered(bs, base, k, i + 1);
      }
    }
  }

  lemma MergedTiles(bs: seq<Block>, base: nat, k: nat)
    requires Tiles(bs, base) && k + 1 < |bs|
    ensures Tiles(MergeAt(bs, k), base)
  {
    var r := MergeAt(bs, k);
    assert Linked(bs, k);
    forall i: nat | i + 1 < |r| ensures Linked(r, i) {
      assert Linked(bs, if i < k then i else i + 1);
    }
  }

  ghost function MergeAt(bs: seq<Block>, i: nat): seq<Block>
    requires i + 1 < |bs|
  {
    bs[..i] + [Block(bs[i].addr, bs[i].size + bs[i + 1].size + HEADER, bs[i].free)] + bs[i + 2..]
  }

  /** What is left of the pass after position i has been handled. */
  ghost function Remaining(bs: seq<Block>, i: nat): seq<Block>
    requires i <= |bs|
  {
    bs[..i] + Coalesce(bs[i..])
  }

  lemma RemainingStep(bs: seq<Block>, i: nat)
    requires i < |bs|
    ensures i + 1 < |bs| && bs[i].free && bs[i + 1].free ==> Remaining(MergeAt(bs, i), i + 1) == Remaining(bs, i)
    ensures !(i + 1 < |bs| && bs[i].free && bs[i + 1].free) ==> Remaining(bs, i + 1) == Remaining(bs, i)
  {
    var rest := bs[i..];
    if i + 1 < |bs| && bs[i].free && bs[i + 1].free {
      var r := MergeAt(bs, i);
      assert r[i + 1..] == rest[2..] && r[..i + 1] == bs[..i] + [r[i]];
    } else {
      assert Coalesce(rest) == [rest[0]] + Coalesce(rest[1..]);
      assert bs[i + 1..] == rest[1..] && bs[..i + 1] == bs[..i] + [bs[i]];
    }
  }

  class Heap {
    const base: nat
    var mem: map<nat, Header>
    var freeList: nat
    ghost var blocks: seq<Block>
    /** What the callers hold. */
    ghost var live: map<nat, Live>

    constructor (base: nat)
      requires base > 0
      ensures this.base == base && Valid() && freeList == NULL && Model() == Fresh(base)
      ensures base % 8 == 0 ==> Safe()
    {
      this.base := base;
      freeList, mem, blocks, live := NULL, map[], [], map[];
    }

    ghost predicate Valid()
      reads this
    {
      && base > 0
      && (freeList != NULL ==> freeList == base && Tiles(blocks, base) && Represents(mem, blocks))
    }

    /** The list of blocks; before the first call, the single block it will start with. */
    ghost function Blocks(): seq<Block>
      reads this
    {
      if freeList == NULL then Fresh(base).blocks else blocks
    }

    /** The heap as the pool whose runs are proved safe. */
    ghost function Model(): Pool
      reads this
    {
      Pool(Blocks(), live)
    }

    ghost predicate Safe()
      reads this
    {
      Inv(Model(), base)
    }

    /** What Safe means for the memory handed out by this heap. */
    lemma SafeMeans()
      requires Safe()
      ensures TotalSize(Blocks()) == POOL_SIZE
      ensures PayloadsAligned(live) && PayloadsDisjoint(live) && PayloadsMissHeaders(Model(), base)
    {
      InvIsSafe(Model(), base);
    }

    method Init()
      requires Valid() && freeList == NULL
      modifies this
      ensures Valid() && freeList == base && blocks == Fresh(base).blocks && live == old(live)
    {
      freeList := base;
      mem := mem[base := Header(POOL_SIZE - HEADER, true, NULL)];
      blocks := Fresh(base).blocks;
    }

    method SplitBlock(block: nat, size: nat)
      requires block in mem && mem[block].size >= size + HEADER
      modifies this`mem
      ensures var h, split := old(mem)[block], block + HEADER + size;
              mem == old(mem)[split := Header(h.size - size - HEADER, true, h.next)]
                             [block := Header(size, h.free, split)]
    {
      var newBlock := block + HEADER + size;
      mem := mem[newBlock := Header(mem[block].size - size - HEADER, true, mem[block].next)];
      mem := mem[block := Header(size, mem[block].free, newBlock)];
    }

    /** Splits the block if the rest can hold a header, and marks it used. */
    method TakeBlock(current: nat, need: nat, ghost i: nat)
      requires Valid() && freeList != NULL && i < |blocks| && current == blocks[i].addr && need <= blocks[i].size
      modifies this`mem, this`blocks
      ensures Valid() && blocks == Take(old(blocks), i, need)
    {
      ghost var bs, m := blocks, mem;
      assert HeaderAt(mem, bs, i);
      if mem[current].size > need + HEADER {
        SplitBlock(current, need);
      }
      mem := mem[current := mem[current].(free := false)];
      blocks := Take(bs, i, need);
      TakenInMemory(m, mem, bs, base, i, need);
      TakeTiles(bs, base, i, need);
    }

    /** align_size, where the sum does not wrap. */
    method Align(n: nat, a: nat) returns (r: nat)
      requires PowerOfTwo(a) && n + a <= WORD64
      ensures r == AlignSize(n, a) && n <= r
    {
      AlignMaskIs(n, a);
      AlignUp(n, a);
      r := AlignMask(n, a);
    }

    /** Whether the block can hold the padded size, and where its aligned payload starts. */
    method Fits(current: nat, size: nat, alignment: nat, ghost i: nat) returns (fits: bool, aligned: nat, need: nat)
      requires i < |blocks| && HeaderAt(mem, blocks, i) && current == blocks[i].addr
      requires PowerOfTwo(alignment) && blocks[i].Start() + alignment <= WORD64
      ensures fits <==> CanHold(blocks[i], size, alignment)
      ensures aligned == AlignSize(blocks[i].Start(), alignment) && need == Need(blocks[i], size, alignment)
    {
      var start := current + HEADER;
      aligned := Align(start, alignment);
      need := Wrap(size + (aligned - start));
      fits := mem[current].free && mem[current].size >= need;
    }

    /** The walk over the headers: the aligned address in the first block that can hold the
        already rounded size, or NULL. */
    method TakeFirst(size: nat, alignment: nat) returns (ptr: nat)
      requires Valid() && freeList != NULL && Addressable(blocks, alignment)
      requires PowerOfTwo(alignment) && base + POOL_SIZE + alignment <= WORD64
      modifies this`mem, this`blocks
      ensures Valid()
      ensures var k := FirstFit(old(blocks), size, alignment, 0);
              if k == |old(blocks)| then ptr == NULL && blocks == old(blocks)
              else && ptr == AlignSize(old(blocks)[k].Start(), alignment)
                   && blocks == Take(old(blocks), k, Need(old(blocks)[k], size, alignment))
    {
      ghost var bs := blocks;
      var current := freeList;
      ghost var i := 0;
      while current != NULL
        invariant i <= |bs| && current == AddrOf(bs, i) && (current == NULL ==> i == |bs|)
        invariant forall j :: 0 <= j < i ==> !CanHold(bs[j], size, alignment)
        invariant blocks == bs && mem == old(mem)
        decreases |bs| - i
      {
        assert HeaderAt(mem, bs, i);
        var fits, aligned, need := Fits(current, size, alignment, i);
        if fits {
          TakeBlock(current, need, i);
          return aligned;
        }
        current := mem[current].next;
        i := i + 1;
        AddressesPositive(bs, base, i);
      }
      return NULL;
    }

    /** my_malloc. */
    method Malloc(request: nat, alignment: nat) returns (ptr: nat)
      requires Valid() && request < WORD64
      requires PowerOfTwo(alignment) && base + POOL_SIZE + alignment <= WORD64
      modifies this
      ensures Valid() && freeList == base
      ensures Addressable(old(Blocks()), alignment)
      ensures (Model(), ptr) == BlockPool.Malloc(old(Model()), request, alignment)
      ensures old(Safe()) && GoodRequest(base, request, alignment) ==> Safe()
    {
      if freeList == NULL { Init(); }
      ghost var pool := Model();
      TilesAddressable(blocks, base, alignment);
      AlignMaskIs(request, alignment);
      var size := AlignMask(request, alignment);
      ptr := TakeFirst(size, alignment);
      live := BlockPool.Malloc(pool, request, alignment).0.live;
      if Inv(pool, base) && GoodRequest(base, request, alignment) {
        MallocKeepsInv(pool, base, request, alignment);
      }
    }

    /** Marks the block whose header precedes ptr free, then runs one merging pass. */
    method Free(ptr: nat)
      requires Valid()
      requires ptr != NULL ==> freeList != NULL && IndexAt(blocks, ptr - HEADER, 0) < |blocks|
      modifies this
      ensures Valid() && freeList == old(freeList)
      ensures Model() == BlockPool.Free(old(Model()), ptr)
      ensures old(Safe()) && (ptr == NULL || (ptr in old(live) && old(live)[ptr].align == 8)) ==> Safe()
    {
      ghost var pool := Model();
      if Inv(pool, base) && (ptr == NULL || (ptr in live && live[ptr].align == 8)) {
        FreeKeepsInv(pool, base, ptr);
      }
      if ptr == NULL { return; }
      ReleaseBlock(ptr, IndexAt(blocks, ptr - HEADER, 0));
      live := live - {ptr};
    }

    method ReleaseBlock(ptr: nat, ghost k: nat)
      requires Valid() && freeList != NULL && k < |blocks| && blocks[k].addr == ptr - HEADER
      modifies this`mem, this`blocks
      ensures Valid() && blocks == Release(old(blocks), k)
    {
      assert HeaderAt(mem, blocks, k);
      var block := ptr - HEADER;
      ghost var m := blocks[k := blocks[k].(free := true)];
      UpdateHeader(mem, blocks, m, base, k, mem[block].(free := true));
      forall i: nat | i + 1 < |m| ensures Linked(m, i) { assert Linked(blocks, i); }
      mem := mem[block := mem[block].(free := true)];
      blocks := m;
      CoalesceAdjacent();
    }

    method CoalesceAdjacent()
      requires Valid() && freeList != NULL
      modifies this`mem, this`blocks
      ensures Valid() && blocks == Coalesce(old(blocks))
    {
      var current := freeList;
      ghost var i := 0;
      while current != NULL
        invariant Valid()
        invariant i <= |blocks| && current == AddrOf(blocks, i) && (current == NULL ==> i == |blocks|)
        invariant Remaining(blocks, i) == Coalesce(old(blocks))
        decreases |blocks| - i
      {
        assert HeaderAt(mem, blocks, i);
        RemainingStep(blocks, i);
        var next := mem[current].next;
        if i + 1 < |blocks| { assert HeaderAt(mem, blocks, i + 1); }
        AddressesPositive(blocks, base, i + 1);
        if mem[current].free && next != NULL && mem[next].free {
          Merge(current, next, i);
        }
        assert HeaderAt(mem, blocks, i);
        current := mem[current].next;
        i := i + 1;
        AddressesPositive(blocks, base, i);
      }
      assert blocks[..i] == blocks;
    }

    /** current absorbs next. */
    method Merge(current: nat, next: nat, ghost i: nat)
      requires Valid() && freeList != NULL && i + 1 < |blocks|
      requires current == blocks[i].addr && next == blocks[i + 1].addr && blocks[i].free && blocks[i + 1].free
      modifies this`mem, this`blocks
      ensures Valid()
      ensures blocks == MergeAt(old(blocks), i)
    {
      assert HeaderAt(mem, blocks, i) && HeaderAt(mem, blocks, i + 1);
      MergedInMemory(mem, blocks, base, i);
      MergedTiles(blocks, base, i);
      mem := mem[current := Header(mem[current].size + mem[next].size + HEADER, true, mem[next].next)];
      blocks := MergeAt(blocks, i);
    }
  }
}
