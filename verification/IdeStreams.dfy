/** Selective IDE streams: variable-length register blocks in configuration space,
    and the walkers that find and program them. */
module IdeStreams {

  const IDE_CAP_REG: int := 0x4
  const IDE_CAP_REG_SIZE: int := 0xC
  const LINK_BLOCK: int := 0x8
  const CONTROL: int := 0x4
  const STATUS: int := 0x8
  const RID_1: int := 0xC
  const RID_2: int := 0x10
  const FIXED_BLOCK: int := 0x14
  const ADDR_BLOCK: int := 0xC
  const STATE_SECURE: nat := 2

  type Regs = map<int, nat>

  function Read(r: Regs, a: int): nat { if a in r then r[a] else 0 }

  // ----- layout -----

  predicate Supported(r: Regs, cap: int) { Read(r, cap + IDE_CAP_REG) / 2 % 2 == 1 }

  /** Number of selective streams: the field holds one less. */
  function Streams(r: Regs, cap: int): nat { Read(r, cap + IDE_CAP_REG) / 0x1_0000 % 256 + 1 }

  function TrafficClasses(r: Regs, cap: int): nat { Read(r, cap + IDE_CAP_REG) / 0x2000 % 8 + 1 }

  /** Number of address association blocks of the stream block at o. */
  function AddrBlocks(r: Regs, o: int): nat { Read(r, o) % 16 }

  /** Offset of the block of stream k, counted from 1. */
  ghost function Offset(r: Regs, cap: int, k: nat): int
    requires k >= 1
  {
    if k == 1 then cap + IDE_CAP_REG_SIZE + LINK_BLOCK * TrafficClasses(r, cap)
    else Offset(r, cap, k - 1) + FIXED_BLOCK + ADDR_BLOCK * AddrBlocks(r, Offset(r, cap, k - 1))
  }

  /** The layout in numbers: 12 bytes of capability, 8 for each traffic class, then blocks of 20
      bytes and 12 for each address association. */
  lemma OffsetInNumbers(r: Regs, cap: int, k: nat)
    requires k >= 1
    ensures Offset(r, cap, 1) == cap + 0xC + 8 * (Read(r, cap + 4) / 0x2000 % 8 + 1)
    ensures Offset(r, cap, k + 1) == Offset(r, cap, k) + 0x14 + 0xC * (Read(r, Offset(r, cap, k)) % 16)
  {
  }

  /** Stream blocks follow one another without overlap, after the capability registers. */
  lemma {:induction false} BlocksApart(r: Regs, cap: int, j: nat, k: nat)
    requires 1 <= j < k
    ensures Offset(r, cap, j) + FIXED_BLOCK + ADDR_BLOCK * AddrBlocks(r, Offset(r, cap, j)) <= Offset(r, cap, k)
    decreases k
  {
    if j < k - 1 { BlocksApart(r, cap, j, k - 1); }
  }

  lemma {:induction false} AfterCapability(r: Regs, cap: int, k: nat)
    requires k >= 1
    ensures cap + IDE_CAP_REG_SIZE <= Offset(r, cap, k)
  {
    if k > 1 { AfterCapability(r, cap, k - 1); }
  }

  /** Address a is one of the writable registers of the block of stream k. */
  ghost predicate InBlock(r: Regs, cap: int, k: nat, a: int)
    requires k >= 1
  {
    Offset(r, cap, k) < a < Offset(r, cap, k) + FIXED_BLOCK
  }

  ghost predicate SameOutside(r: Regs, r': Regs, cap: int, k: nat)
    requires k >= 1
  {
    forall a :: !InBlock(r, cap, k, a) ==> Read(r', a) == Read(r, a)
  }

  /** Writes inside one block move no block. */
  lemma {:induction false} LayoutStable(r: Regs, r': Regs, cap: int, k: nat, j: nat)
    requires k >= 1 && j >= 1 && SameOutside(r, r', cap, k)
    ensures Streams(r', cap) == Streams(r, cap) && Supported(r', cap) == Supported(r, cap)
    ensures Offset(r', cap, j) == Offset(r, cap, j)
    decreases j
  {
    AfterCapability(r, cap, k);
    assert Read(r', cap + IDE_CAP_REG) == Read(r, cap + IDE_CAP_REG);
    if j > 1 {
      LayoutStable(r, r', cap, k, j - 1);
      if j - 1 < k { BlocksApart(r, cap, j - 1, k); } else if k < j - 1 { BlocksApart(r, cap, k, j - 1); }
      assert Read(r', Offset(r, cap, j - 1)) == Read(r, Offset(r, cap, j - 1));
    }
  }

  // ----- the function and its walkers -----

  /** One PCIe function. Status registers belong to the hardware, which may change them at any time. */
  class Function {
    const present: bool
    const cap: int
    var regs: Regs
    var live: Regs

    constructor (present: bool, cap: int, regs: Regs)
      ensures this.present == present && this.cap == cap && this.regs == regs
    {
      this.present, this.cap, this.regs, this.live := present, cap, regs, map[];
    }

    /** A walker accepts stream k. */
    ghost predicate Accepts(k: nat)
      reads this
    {
      present && Supported(regs, cap) && 1 <= k <= Streams(regs, cap)
    }

    method GetNumSelStreams() returns (status: int, n: nat)
      ensures status == 0 <==> present && Read(regs, cap + 4) / 2 % 2 == 1
      ensures status == 0 ==> n == Read(regs, cap + 4) / 0x1_0000 % 256 + 1
      ensures status == 0 ==> forall k: nat :: Accepts(k) <==> 1 <= k <= n
    {
      if !present || Read(regs, cap + IDE_CAP_REG) / 2 % 2 == 0 { return 1, 0; }
      n := Read(regs, cap + IDE_CAP_REG) / 0x1_0000 % 256 + 1;
      return 0, n;
    }

    /** val_ide_set_sel_stream. */
    method SetSelStream(str: nat, enable: bool) returns (status: int)
      modifies this`regs
      ensures status == (if old(Accepts(str)) then 0 else 1)
      ensures status != 0 ==> regs == old(regs)
      ensures status == 0 ==>
                var a := Offset(old(regs), cap, str) + 4;
                regs == old(regs)[a := if enable then SetBit0(Read(old(regs), a)) else 0]
    {
      if !present || Read(regs, cap + IDE_CAP_REG) / 2 % 2 == 0 { return 1; }
      var num := Read(regs, cap + IDE_CAP_REG) / 0x1_0000 % 256;
      var tc := Read(regs, cap + IDE_CAP_REG) / 0x2000 % 8;
      var offset := cap + IDE_CAP_REG_SIZE + (tc + 1) * LINK_BLOCK;
      var count := 0;
      while count <= num
        invariant count <= num + 1 && offset == Offset(regs, cap, count + 1)
        invariant !(1 <= str <= count) && regs == old(regs)
      {
        count := count + 1;
        var addrBlocks := Read(regs, offset) % 16;
        if count == str {
          var v := Read(regs, offset + CONTROL);
          if enable {
            regs := regs[offset + CONTROL := SetBit0(v)];
          } else {
            regs := regs[offset + CONTROL := 0];
          }
          return 0;
        }
        offset := offset + 0xC;
        offset := offset + 0x4;
        offset := offset + 0x4;
        offset := offset + addrBlocks * ADDR_BLOCK;
      }
      return 1;
    }

    /** val_ide_program_stream_id. */
    method ProgramStreamId(str: nat, id: nat) returns (status: int)
      modifies this`regs
      ensures status == (if old(Accepts(str)) then 0 else 1)
      ensures status != 0 ==> regs == old(regs)
      ensures status == 0 ==> regs == old(regs)[Offset(old(regs), cap, str) + 4 := id % 256 * 0x100_0000]
    {
      if !present || Read(regs, cap + IDE_CAP_REG) / 2 % 2 == 0 { return 1; }
      var num := Read(regs, cap + IDE_CAP_REG) / 0x1_0000 % 256;
      var tc := Read(regs, cap + IDE_CAP_REG) / 0x2000 % 8;
      var offset := cap + IDE_CAP_REG_SIZE + (tc + 1) * LINK_BLOCK;
      var count := 0;
      while count <= num
        invariant count <= num + 1 && offset == Offset(regs, cap, count + 1)
        invariant !(1 <= str <= count) && regs == old(regs)
      {
        count := count + 1;
        var addrBlocks := Read(regs, offset) % 16;
        if count == str {
          regs := regs[offset + CONTROL := id % 256 * 0x100_0000];
          return 0;
        }
        offset := offset + 0xC;
        offset := offset + 0x4;
        offset := offset + 0x4;
        offset := offset + addrBlocks * ADDR_BLOCK;
      }
      return 1;
    }

    /** This walker keeps both RID register addresses while it advances; the valid bit is
        written over the base value. */
    method ProgramRid(str: nat, rid: nat, limit: nat, valid: nat) returns (status: int)
      modifies this`regs
      ensures status == (if old(Accepts(str)) then 0 else 1)
      ensures status != 0 ==> regs == old(regs)
      ensures status == 0 ==>
                var o := Offset(old(regs), cap, str);
                regs == old(regs)[o + 0xC := limit % 0x1_0000 * 256][o + 0x10 := valid]
    {
      if !present || Read(regs, cap + IDE_CAP_REG) / 2 % 2 == 0 { return 1; }
      var num := Read(regs, cap + IDE_CAP_REG) / 0x1_0000 % 256;
      var tc := Read(regs, cap + IDE_CAP_REG) / 0x2000 % 8;
      var offset := cap + IDE_CAP_REG_SIZE + (tc + 1) * LINK_BLOCK;
      var count := 0;
      while count <= num
        invariant count <= num + 1 && offset == Offset(regs, cap, count + 1)
        invariant !(1 <= str <= count) && regs == old(regs)
      {
        count := count + 1;
        var addrBlocks := Read(regs, offset) % 16;
        offset := offset + 0xC;
        var reg1 := offset;
        offset := offset + 0x4;
        var reg2 := offset;
        if count == str {
          regs := regs[reg1 := limit % 0x1_0000 * 256];
          regs := regs[reg2 := rid % 0x1_0000 * 256];
          regs := regs[reg2 := valid];
          return 0;
        }
        offset := offset + 0x4;
        offset := offset + addrBlocks * ADDR_BLOCK;
      }
      return 1;
    }

    /** val_get_sel_str_status. */
    method GetStatus(str: nat) returns (status: int, state: nat)
      modifies this`live
      ensures status == (if Accepts(str) then 0 else 1)
      ensures status == 0 ==> state == Read(live, Offset(regs, cap, str) + 8) % 16
    {
      live := *;
      if !present || Read(regs, cap + IDE_CAP_REG) / 2 % 2 == 0 { return 1, 0; }
      var num := Read(regs, cap + IDE_CAP_REG) / 0x1_0000 % 256;
      var tc := Read(regs, cap + IDE_CAP_REG) / 0x2000 % 8;
      var offset := cap + IDE_CAP_REG_SIZE + (tc + 1) * LINK_BLOCK;
      var count := 0;
      while count <= num
        invariant count <= num + 1 && offset == Offset(regs, cap, count + 1)
        invariant !(1 <= str <= count)
      {
        count := count + 1;
        var addrBlocks := Read(regs, offset) % 16;
        if count == str {
          state := Read(live, offset + STATUS) % 16;
          return 0, state;
        }
        offset := offset + 0xC;
        offset := offset + 0x4;
        offset := offset + 0x4;
        offset := offset + addrBlocks * ADDR_BLOCK;
      }
      return 1, 0;
    }

    /** The RID and stream ID of a stream. */
    method ProgramIds(str: nat, id: nat, rid: nat) returns (status: int)
      modifies this`regs
      ensures status == (if old(Accepts(str)) then 0 else 1)
      ensures status != 0 ==> regs == old(regs)
      ensures status == 0 ==>
                && SameOutside(old(regs), regs, cap, str) && Accepts(str)
                && Offset(regs, cap, str) == Offset(old(regs), cap, str)
                && Read(regs, Offset(regs, cap, str) + 4) == id % 256 * 0x100_0000
                && Read(regs, Offset(regs, cap, str) + 0x10) == 1
    {
      ghost var r := regs;
      var s := ProgramRid(str, rid, rid, 1);
      if s != 0 { return 1; }
      LayoutStable(r, regs, cap, str, str);
      s := ProgramStreamId(str, id);
      LayoutStable(r, regs, cap, str, str);
      return s;
    }

    /** The same, and the stream enabled. */
    method ProgramStream(str: nat, id: nat, rid: nat) returns (status: int)
      modifies this`regs
      ensures status == (if old(Accepts(str)) then 0 else 1)
      ensures status != 0 ==> regs == old(regs)
      ensures status == 0 ==>
                && SameOutside(old(regs), regs, cap, str) && Accepts(str)
                && Offset(regs, cap, str) == Offset(old(regs), cap, str)
                && Read(regs, Offset(regs, cap, str) + 4) == id % 256 * 0x100_0000 + 1
                && Read(regs, Offset(regs, cap, str) + 0x10) == 1
    {
      ghost var r := regs;
      var s := ProgramIds(str, id, rid);
      if s != 0 { return 1; }
      s := SetSelStream(str, true);
      LayoutStable(r, regs, cap, str, str);
      EnableBit(id % 256);
      return s;
    }

    /** val_ide_establish_stream: succeeds only with the stream secure, its control register
        holding the ID and the enable bit, and no register of any other stream touched. */
    method EstablishStream(str: nat, id: nat, rid: nat) returns (status: int)
      modifies this
      ensures status == 0 ==> old(Accepts(str))
      ensures !old(Accepts(str)) ==> regs == old(regs)
      ensures status == 0 ==>
                && Read(regs, Offset(old(regs), cap, str) + 4) == id % 256 * 0x100_0000 + 1
                && Read(live, Offset(old(regs), cap, str) + 8) % 16 == 2
                && Read(regs, Offset(old(regs), cap, str) + 0x10) == 1
      ensures old(Accepts(str)) ==> SameOutside(old(regs), regs, cap, str)
    {
      var s := ProgramStream(str, id, rid);
      if s != 0 { return 1; }
      var state: nat;
      s, state := GetStatus(str);
      if s != 0 || state != STATE_SECURE { return 1; }
      return 0;
    }
  }

  function SetBit0(v: nat): nat { if v % 2 == 0 then v + 1 else v }

  lemma EnableBit(id: nat)
    ensures SetBit0(id * 0x100_0000) == id * 0x100_0000 + 1
  {
    assert id * 0x100_0000 == 2 * (id * 0x80_0000);
  }
}
