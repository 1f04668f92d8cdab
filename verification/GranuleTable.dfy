/** In-place editing of the Granule Protection Table from EL3. */
module GranuleTable {
  import opened Arithmetic
  import opened Bits

  // ----- configuration register -----

  /** Bits of GPCCR_EL3 that matter: PPS, L0GPTSZ and the two-bit granule size field. */
  datatype Gpccr = Gpccr(pps: nat, l0gptsz: nat, pgs: nat)

  /** Granule size by PGS encoding: 4 KB, 64 KB, 16 KB. */
  function GranuleBits(pgs: nat): nat { if pgs == 0 then 12 else if pgs == 1 then 16 else 14 }

  /** The editor masks PGS with 0b10 before it looks the size up. */
  function MaskedPgs(pgs: nat): nat { pgs / 2 * 2 }

  function PpsBits(pps: nat): nat {
    if pps == 0 then 32 else if pps == 1 then 36 else if pps == 2 then 40 else if pps == 3 then 42
    else if pps == 4 then 44 else if pps == 5 then 48 else 52
  }

  /** Address bits protected, covered by one level 0 entry, and covered by one granule. */
  datatype Config = Config(pps: nat, l0: nat, p: nat)

  function Decode(r: Gpccr): Config { Config(PpsBits(r.pps), r.l0gptsz + 30, GranuleBits(MaskedPgs(r.pgs))) }

  lemma Powers()
    ensures Pow2(12) == 0x1000 && Pow2(14) == 0x4000 && Pow2(30) == 0x4000_0000 && Pow2(32) == 0x1_0000_0000
    ensures Pow2(36) == 0x10_0000_0000 && Pow2(40) == 0x100_0000_0000 && Pow2(42) == 0x400_0000_0000
    ensures Pow2(44) == 0x1000_0000_0000 && Pow2(48) == 0x1_0000_0000_0000 && Pow2(52) == 0x10_0000_0000_0000
  {
    assert Pow2(2) == 4 && Pow2(4) == 16;
    Pow2Sum(4, 4);
    assert Pow2(8) == 0x100;
    Pow2Sum(8, 4);
    Pow2Sum(12, 2);
    Pow2Sum(12, 4);
    assert Pow2(16) == 0x1_0000;
    Pow2Sum(16, 14);
    Pow2Sum(16, 16);
    assert Pow2(32) == 0x1_0000_0000;
    Pow2Sum(32, 4);
    Pow2Sum(32, 8);
    assert Pow2(40) == 0x100_0000_0000;
    Pow2Sum(40, 2);
    Pow2Sum(40, 4);
    Pow2Sum(40, 8);
    Pow2Sum(40, 12);
  }

  /** Bytes of a granule and of the region of a level 0 entry, by the register's fields. */
  function GranuleBytes(r: Gpccr): nat { if r.pgs == 0 || r.pgs == 1 then 0x1000 else 0x4000 }

  function RegionBytes(r: Gpccr): nat { 0x4000_0000 * Pow2(r.l0gptsz) }

  /** The sizes the editor decodes. */
  lemma RegisterDecodes(r: Gpccr)
    requires r.pps < 7 && r.pgs < 4
    ensures Pow2(Decode(r).p) == GranuleBytes(r) && Pow2(Decode(r).l0) == RegionBytes(r)
    ensures Pow2(Decode(r).pps) ==
            [0x1_0000_0000, 0x10_0000_0000, 0x100_0000_0000, 0x400_0000_0000, 0x1000_0000_0000,
             0x1_0000_0000_0000, 0x10_0000_0000_0000][r.pps]
  {
    Powers();
    Pow2Sum(30, r.l0gptsz);
  }

  /** The architecture's granule sizes are 4 KB, 64 KB and 16 KB; the masked field gives the
      right one exactly when it does not ask for 64 KB. */
  lemma PgsDecodedIffNot64KB(r: Gpccr)
    requires r.pps < 7 && r.pgs < 3
    ensures Pow2(Decode(r).p) == [0x1000, 0x1_0000, 0x4000][r.pgs] <==> r.pgs != 1
  {
    RegisterDecodes(r);
  }

  /** A level 0 entry covers at least one level 1 entry and at most the protected space. */
  predicate ConfigOk(c: Config) { c.p + 4 <= c.l0 <= c.pps }

  // ----- indices -----

  function Index0(c: Config, pa: nat): (i: nat)
    requires ConfigOk(c)
    ensures i < Pow2(c.pps - c.l0)
  {
    pa / Pow2(c.l0) % Pow2(c.pps - c.l0)
  }

  function Index1(c: Config, pa: nat): (i: nat)
    requires ConfigOk(c)
    ensures i < Pow2(c.l0 - (c.p + 4))
  {
    pa / Pow2(c.p + 4) % Pow2(c.l0 - (c.p + 4))
  }

  function GranuleIndex(c: Config, pa: nat): nat { pa / Pow2(c.p) % 16 }

  // ----- descriptors and memory -----

  type Mem = map<int, nat>

  function Read(m: Mem, a: int): nat { if a in m then m[a] else 0 }

  predicate IsTable(d: nat) { d % 16 == 3 }
  predicate IsContiguous(d: nat) { d % 16 == 1 }

  /** Next-level base, bits [51:12]. */
  function TableBase(d: nat): int { d / 4096 % 0x100_0000_0000 * 4096 }

  /** The table descriptor with its reserved bits [63:52] and [11:4] cleared. */
  function CleanTable(d: nat): nat { TableBase(d) + d % 16 }

  lemma CleanTableSame(d: nat)
    requires IsTable(d)
    ensures IsTable(CleanTable(d)) && TableBase(CleanTable(d)) == TableBase(d)
  {
    TableAtPage(d / 4096 % 0x100_0000_0000);
  }

  lemma TableAtPage(k: nat)
    requires k < 0x100_0000_0000
    ensures IsTable(4096 * k + 3) && TableBase(4096 * k + 3) == 4096 * k
  {
    RemainderUnique(4096 * k + 3, 16, 256 * k, 3);
    RemainderUnique(4096 * k + 3, 4096, k, 3);
    RemainderUnique(k, 0x100_0000_0000, 0, k);
  }

  predicate IsGpiValid(gpi: nat) { gpi == 0 || gpi == 15 || 8 <= gpi <= 11 }

  lemma ValidGpis(gpi: nat)
    ensures IsGpiValid(gpi) <==> gpi in {0, 8, 9, 10, 11, 15}
  {
  }

  /** Field of a descriptor that holds the protection information of an address. */
  function GpiField(c: Config, level: nat, d: nat, pa: nat): nat {
    if level == 0 || IsContiguous(d) then 1 else GranuleIndex(c, pa)
  }

  /** modify_gpt_gpi: the field is cleared and the new value or-ed in, if they differ. */
  function ModifyGpi(c: Config, level: nat, d: nat, pa: nat, gpi: nat): nat {
    var i := GpiField(c, level, d, pa);
    if Nibble(d, i) == gpi then d else Or(ClearNibble(d, i), gpi * Pow16(i))
  }

  lemma ModifyGpiSets(c: Config, level: nat, d: nat, pa: nat, gpi: nat)
    requires gpi < 16
    ensures ModifyGpi(c, level, d, pa, gpi) == SetNibble(d, GpiField(c, level, d, pa), gpi)
  {
    ClearThenOr(d, GpiField(c, level, d, pa), gpi);
    SetSameNibble(d, GpiField(c, level, d, pa));
  }

  // ----- the table as a map from addresses to protection information -----

  datatype Kind = BlockEntry | ContiguousEntry | GranuleEntry

  ghost function Cell0(c: Config, base: int, pa: nat): int
    requires ConfigOk(c)
  {
    base + 8 * Index0(c, pa)
  }

  /** Address of the descriptor that decides `pa`, and its kind. */
  ghost function Decider(c: Config, base: int, m: Mem, pa: nat): (int, Kind)
    requires ConfigOk(c)
  {
    var d0 := Read(m, Cell0(c, base, pa));
    if !IsTable(d0) then (Cell0(c, base, pa), BlockEntry)
    else
      var a1 := TableBase(d0) + 8 * Index1(c, pa);
      (a1, if IsContiguous(Read(m, a1)) then ContiguousEntry else GranuleEntry)
  }

  ghost function FieldOf(c: Config, kind: Kind, pa: nat): nat {
    if kind.GranuleEntry? then GranuleIndex(c, pa) else 1
  }

  /** Protection information of an address. */
  ghost function Lookup(c: Config, base: int, m: Mem, pa: nat): nat
    requires ConfigOk(c)
  {
    var (a, kind) := Decider(c, base, m, pa);
    Nibble(Read(m, a), FieldOf(c, kind, pa))
  }

  /** The two addresses are decided by the same field of the same descriptor. */
  ghost predicate SameUnit(c: Config, base: int, m: Mem, pa: nat, pa': nat)
    requires ConfigOk(c)
  {
    var kind := Decider(c, base, m, pa).1;
    && Index0(c, pa) == Index0(c, pa')
    && (!kind.BlockEntry? ==> Index1(c, pa) == Index1(c, pa'))
    && (kind.GranuleEntry? ==> GranuleIndex(c, pa) == GranuleIndex(c, pa'))
  }

  ghost predicate Inside0(c: Config, base: int, a: int)
    requires ConfigOk(c)
  {
    base <= a < base + 8 * Pow2(c.pps - c.l0)
  }

  ghost predicate Inside1(c: Config, t: int, a: int)
    requires ConfigOk(c)
  {
    t <= a < t + 8 * Pow2(c.l0 - (c.p + 4))
  }

  /** Address a lies in the level 1 table of level 0 entry i. */
  ghost predicate Owns(c: Config, base: int, m: Mem, i: nat, a: int)
    requires ConfigOk(c)
  {
    IsTable(Read(m, base + 8 * i)) && Inside1(c, TableBase(Read(m, base + 8 * i)), a)
  }

  /** Level 1 tables of different level 0 entries do not overlap each other or level 0. */
  ghost predicate Layout(c: Config, base: int, m: Mem)
    requires ConfigOk(c)
  {
    && (forall i: nat, a :: i < Pow2(c.pps - c.l0) && Owns(c, base, m, i, a) ==> !Inside0(c, base, a))
    && (forall i: nat, j: nat, a :: i < Pow2(c.pps - c.l0) && j < Pow2(c.pps - c.l0) ==>
          (Owns(c, base, m, i, a) && Owns(c, base, m, j, a) ==> i == j))
  }

  /** add_gpt_entry on memory. */
  ghost function Added(c: Config, base: int, m: Mem, pa: nat, gpi: nat): Mem
    requires ConfigOk(c)
  {
    var a0 := Cell0(c, base, pa);
    var d0 := Read(m, a0);
    if IsTable(d0) then
      var m1 := m[a0 := CleanTable(d0)];
      var a1 := TableBase(d0) + 8 * Index1(c, pa);
      m1[a1 := ModifyGpi(c, 1, Read(m1, a1), pa, gpi)]
    else m[a0 := ModifyGpi(c, 0, d0, pa, gpi)]
  }

  class Editor {
    const config: Config
    const base: int
    var mem: Mem

    constructor (r: Gpccr, base: int, mem: Mem)
      ensures config == Decode(r) && this.base == base && this.mem == mem
    {
      this.config, this.base, this.mem := Decode(r), base, mem;
    }

    method AddGptEntry(pa: nat, gpi: nat)
      requires ConfigOk(config)
      modifies this`mem
      ensures mem == Added(config, base, old(mem), pa, gpi)
    {
      var l0Entry := base + 8 * Index0(config, pa);
      var table := 0;
      if IsTable(Read(mem, l0Entry)) {
        mem := mem[l0Entry := CleanTable(Read(mem, l0Entry))];
        CleanTableSame(Read(old(mem), l0Entry));
        table := TableBase(Read(mem, l0Entry));
      } else {
        mem := mem[l0Entry := ModifyGpi(config, 0, Read(mem, l0Entry), pa, gpi)];
        return;
      }
      var l1Entry := table + 8 * Index1(config, pa);
      mem := mem[l1Entry := ModifyGpi(config, 1, Read(mem, l1Entry), pa, gpi)];
    }
  }

  // ----- one edit as a map update -----

  /** Where the cells of an address lie. */
  lemma CellPlaces(c: Config, base: int, m: Mem, pa: nat)
    requires ConfigOk(c) && Layout(c, base, m)
    ensures Index0(c, pa) < Pow2(c.pps - c.l0) && Inside0(c, base, Cell0(c, base, pa))
    ensures var d0 := Read(m, Cell0(c, base, pa));
            IsTable(d0) ==>
              var a1 := TableBase(d0) + 8 * Index1(c, pa);
              Owns(c, base, m, Index0(c, pa), a1) && !Inside0(c, base, a1)
  {
    var i0, i1 := Index0(c, pa), Index1(c, pa);
    PlaceInside(c, base, m, i0, i1);
  }

  lemma PlaceInside(c: Config, base: int, m: Mem, i0: nat, i1: nat)
    requires ConfigOk(c) && Layout(c, base, m) && i0 < Pow2(c.pps - c.l0) && i1 < Pow2(c.l0 - (c.p + 4))
    ensures Inside0(c, base, base + 8 * i0)
    ensures var d0 := Read(m, base + 8 * i0);
            IsTable(d0) ==> Owns(c, base, m, i0, TableBase(d0) + 8 * i1) && !Inside0(c, base, TableBase(d0) + 8 * i1)
  {
  }

  /** Replacing a field other than the lowest, or by a value other than 1, keeps what
      the low four bits say about the descriptor. */
  lemma LowFieldKept(d: nat, i: nat, gpi: nat)
    requires gpi < 16
    ensures i != 0 ==> SetNibble(d, i, gpi) % 16 == d % 16
    ensures i == 0 ==> SetNibble(d, i, gpi) % 16 == gpi
  {
    NibbleOfSet(d, i, gpi, 0);
    assert Nibble(d, 0) == d % 16 && Nibble(SetNibble(d, i, gpi), 0) == SetNibble(d, i, gpi) % 16;
  }

  /** Only the deciding descriptor changes, in one field; table descriptors only lose reserved bits. */
  lemma AddedCells(c: Config, base: int, m: Mem, pa: nat, gpi: nat)
    requires ConfigOk(c) && Layout(c, base, m) && gpi < 16
    ensures var m' := Added(c, base, m, pa, gpi);
            var (a, kind) := Decider(c, base, m, pa);
            && Read(m', a) == SetNibble(Read(m, a), FieldOf(c, kind, pa), gpi)
            && (forall x :: x != a && x != Cell0(c, base, pa) ==> Read(m', x) == Read(m, x))
            && (!kind.BlockEntry? ==>
                  && a != Cell0(c, base, pa)
                  && Read(m', Cell0(c, base, pa)) == CleanTable(Read(m, Cell0(c, base, pa))))
  {
    CellPlaces(c, base, m, pa);
    var a0 := Cell0(c, base, pa);
    var d0 := Read(m, a0);
    if IsTable(d0) {
      var a1 := TableBase(d0) + 8 * Index1(c, pa);
      ModifyGpiSets(c, 1, Read(m, a1), pa, gpi);
    } else {
      ModifyGpiSets(c, 0, d0, pa, gpi);
    }
  }

  /** The descriptor kind and place that decide an address never change. */
  lemma AddedKeepsKinds(c: Config, base: int, m: Mem, pa: nat, gpi: nat, pa': nat)
    requires ConfigOk(c) && Layout(c, base, m) && gpi < 16 && gpi != 1
    ensures Decider(c, base, Added(c, base, m, pa, gpi), pa') == Decider(c, base, m, pa')
  {
    AddedTables(c, base, m, pa, gpi, Index0(c, pa'));
    var d0 := Read(m, Cell0(c, base, pa'));
    if IsTable(d0) { AddedEntries(c, base, m, pa, gpi, pa'); }
  }

  /** Level 1 entries stay contiguous or not. */
  lemma AddedEntries(c: Config, base: int, m: Mem, pa: nat, gpi: nat, pa': nat)
    requires ConfigOk(c) && Layout(c, base, m) && gpi < 16 && gpi != 1 && IsTable(Read(m, Cell0(c, base, pa')))
    ensures var a1 := TableBase(Read(m, Cell0(c, base, pa'))) + 8 * Index1(c, pa');
            IsContiguous(Read(Added(c, base, m, pa, gpi), a1)) == IsContiguous(Read(m, a1))
  {
    var (a, kind) := Decider(c, base, m, pa);
    AddedCells(c, base, m, pa, gpi);
    CellPlaces(c, base, m, pa);
    CellPlaces(c, base, m, pa');
    LowFieldKept(Read(m, a), FieldOf(c, kind, pa), gpi);
  }

  /** Main theorem: one edit updates the map from addresses to protection information
      at the written address's unit, to the written value, and nowhere else. */
  lemma AddIsMapUpdate(c: Config, base: int, m: Mem, pa: nat, gpi: nat, pa': nat)
    requires ConfigOk(c) && Layout(c, base, m) && gpi < 16 && gpi != 1
    ensures Lookup(c, base, Added(c, base, m, pa, gpi), pa') ==
            if SameUnit(c, base, m, pa, pa') then gpi else Lookup(c, base, m, pa')
  {
    var m' := Added(c, base, m, pa, gpi);
    var (a, kind) := Decider(c, base, m, pa);
    var (b, kind') := Decider(c, base, m, pa');
    AddedKeepsKinds(c, base, m, pa, gpi, pa');
    AddedCells(c, base, m, pa, gpi);
    SameDecider(c, base, m, pa, pa');
    NibbleOfSet(Read(m, a), FieldOf(c, kind, pa), gpi, FieldOf(c, kind', pa'));
    if b != a {
      CellPlaces(c, base, m, pa);
      CellPlaces(c, base, m, pa');
      assert b != Cell0(c, base, pa);
    }
  }

  /** Two addresses share a deciding descriptor exactly when their indices agree as far as its kind uses them. */
  lemma SameDecider(c: Config, base: int, m: Mem, pa: nat, pa': nat)
    requires ConfigOk(c) && Layout(c, base, m)
    ensures var (a, kind) := Decider(c, base, m, pa);
            var (b, kind') := Decider(c, base, m, pa');
            a == b <==> Index0(c, pa) == Index0(c, pa') && (kind.BlockEntry? || Index1(c, pa) == Index1(c, pa'))
    ensures Decider(c, base, m, pa).0 == Decider(c, base, m, pa').0 ==>
        Decider(c, base, m, pa).1 == Decider(c, base, m, pa').1
  {
    CellPlaces(c, base, m, pa);
    CellPlaces(c, base, m, pa');
  }

  // ----- units are address regions -----

  /** Address bits below the region one field speaks for. */
  function RegionBits(c: Config, kind: Kind): nat {
    match kind
    case BlockEntry => c.l0
    case ContiguousEntry => c.p + 4
    case GranuleEntry => c.p
  }

  /** Addresses a and b lie in the same aligned region of 2^bits bytes. */
  ghost predicate SameRegion(a: nat, b: nat, bits: nat) { a / Pow2(bits) == b / Pow2(bits) }

  /** One more index below a region splits it into 2^width smaller ones. */
  lemma IndexSplits(x: nat, y: nat, low: nat, width: nat, high: nat)
    requires high == low + width
    ensures SameRegion(x, y, low) <==>
            SameRegion(x, y, high) && x / Pow2(low) % Pow2(width) == y / Pow2(low) % Pow2(width)
  {
    Pow2Sum(low, width);
    DivideTwice(x, Pow2(low), Pow2(width));
    DivideTwice(y, Pow2(low), Pow2(width));
    SameParts(x / Pow2(low), y / Pow2(low), Pow2(width));
  }

  lemma SameParts(d: int, e: int, n: int)
    requires n > 0
    ensures d == e <==> d / n == e / n && d % n == e % n
  {
    assert d == d / n * n + d % n && e == e / n * n + e % n;
  }

  lemma TopIndex(c: Config, pa: nat)
    requires ConfigOk(c) && pa < Pow2(c.pps)
    ensures Index0(c, pa) == pa / Pow2(c.l0)
  {
    TopDigit(pa, c.l0, c.pps - c.l0, c.pps);
  }

  lemma TopDigit(x: nat, low: nat, width: nat, high: nat)
    requires high == low + width && x < Pow2(high)
    ensures x / Pow2(low) % Pow2(width) == x / Pow2(low)
  {
    Pow2Sum(low, width);
    BelowBoth(x, Pow2(low), Pow2(width));
  }

  /** Two protected addresses share a unit exactly when they lie in the same aligned
      granule, 16-granule run or level 0 region, as the deciding descriptor's kind says. */
  lemma UnitIsRegion(c: Config, base: int, m: Mem, pa: nat, pa': nat)
    requires ConfigOk(c) && pa < Pow2(c.pps) && pa' < Pow2(c.pps)
    ensures SameUnit(c, base, m, pa, pa') <==> SameRegion(pa, pa', RegionBits(c, Decider(c, base, m, pa).1))
  {
    TopIndex(c, pa);
    TopIndex(c, pa');
    assert Index0(c, pa) == Index0(c, pa') <==> SameRegion(pa, pa', c.l0);
    IndexSplits(pa, pa', c.p + 4, c.l0 - (c.p + 4), c.l0);
    assert Pow2(4) == 16;
    IndexSplits(pa, pa', c.p, 4, c.p + 4);
  }

  // ----- one edit, from the register to the bytes -----

  /** Field `unit` of a descriptor (16^i) is replaced by the value, all other bits stay. */
  ghost predicate Replaced(d: nat, d': nat, unit: nat, gpi: nat)
    requires unit > 0
  {
    d' / unit % 16 == gpi && d' / unit / 16 == d / unit / 16 && d' % unit == d % unit
  }

  ghost function Entry0(r: Gpccr, base: int, pa: nat): int { base + 8 * (pa / RegionBytes(r)) }

  ghost function Entry1(r: Gpccr, d0: nat, pa: nat): int
    requires r.pps < 7 && r.pgs < 4 && ConfigOk(Decode(r))
  {
    RegionSplit(r);
    var run := 16 * GranuleBytes(r);
    d0 / 0x1000 % 0x100_0000_0000 * 0x1000 + 8 * (pa / run % (RegionBytes(r) / run))
  }

  lemma RegionSplit(r: Gpccr)
    requires r.pps < 7 && r.pgs < 4 && ConfigOk(Decode(r))
    ensures var c := Decode(r);
            && 16 * GranuleBytes(r) == Pow2(c.p + 4) > 0
            && RegionBytes(r) / (16 * GranuleBytes(r)) == Pow2(c.l0 - (c.p + 4)) > 0
  {
    var c := Decode(r);
    RegisterDecodes(r);
    assert Pow2(4) == 16;
    Pow2Sum(c.p, 4);
    Pow2Sum(c.l0 - (c.p + 4), c.p + 4);
    RemainderUnique(RegionBytes(r), Pow2(c.p + 4), Pow2(c.l0 - (c.p + 4)), 0);
  }

  lemma EntriesAt(r: Gpccr, base: int, pa: nat, d0: nat)
    requires r.pps < 7 && r.pgs < 4 && ConfigOk(Decode(r)) && pa < Pow2(Decode(r).pps)
    ensures Cell0(Decode(r), base, pa) == Entry0(r, base, pa)
    ensures TableBase(d0) + 8 * Index1(Decode(r), pa) == Entry1(r, d0, pa)
    ensures GranuleIndex(Decode(r), pa) == pa / GranuleBytes(r) % 16
  {
    RegisterDecodes(r);
    RegionSplit(r);
    TopIndex(Decode(r), pa);
  }

  /** What add_gpt_entry does to memory, told by the register, the address and descriptor bits:
      a level 0 entry that is no table (low bits 3) gets the value in bits [7:4]; else the level 1
      entry does, in bits [7:4] if contiguous (low bits 1) and in the granule's field if not. */
  lemma AddWrites(r: Gpccr, base: int, m: Mem, pa: nat, gpi: nat)
    requires r.pps < 7 && r.pgs < 4 && ConfigOk(Decode(r)) && pa < Pow2(Decode(r).pps) && gpi < 16
    requires Layout(Decode(r), base, m)
    ensures var m', a0 := Added(Decode(r), base, m, pa, gpi), Entry0(r, base, pa);
            var d0 := Read(m, a0);
            if d0 % 16 != 3 then
              Replaced(d0, Read(m', a0), 16, gpi) && forall x :: x != a0 ==> Read(m', x) == Read(m, x)
            else
              var a1 := Entry1(r, d0, pa);
              var d1 := Read(m, a1);
              && Replaced(d1, Read(m', a1), if d1 % 16 == 1 then 16 else Pow16(pa / GranuleBytes(r) % 16), gpi)
              && Read(m', a0) % 16 == 3 && Read(m', a0) / 0x1000 % 0x100_0000_0000 == d0 / 0x1000 % 0x100_0000_0000
              && forall x :: x != a0 && x != a1 ==> Read(m', x) == Read(m, x)
  {
    var c := Decode(r);
    var a0 := Cell0(c, base, pa);
    var d0 := Read(m, a0);
    EntriesAt(r, base, pa, d0);
    AddedCells(c, base, m, pa, gpi);
    var (a, kind) := Decider(c, base, m, pa);
    NibbleParts(Read(m, a), FieldOf(c, kind, pa), gpi);
    assert Pow16(1) == 16;
    if IsTable(d0) { CleanTableSame(d0); }
  }

  /** Which addresses one edit affects, in bytes: those of the same granule, of the same 16
      granules, or of the same level 0 region, as the descriptor bits say. */
  lemma AddAffects(r: Gpccr, base: int, m: Mem, pa: nat, gpi: nat, pa': nat)
    requires r.pps < 7 && r.pgs < 4 && ConfigOk(Decode(r)) && gpi < 16 && gpi != 1
    requires pa < Pow2(Decode(r).pps) && pa' < Pow2(Decode(r).pps) && Layout(Decode(r), base, m)
    ensures var c, d0 := Decode(r), Read(m, Entry0(r, base, pa));
            var bytes := if d0 % 16 != 3 then RegionBytes(r)
                         else if Read(m, Entry1(r, d0, pa)) % 16 == 1 then 16 * GranuleBytes(r)
                         else GranuleBytes(r);
            && bytes > 0
            && Lookup(c, base, Added(c, base, m, pa, gpi), pa') ==
                 if pa / bytes == pa' / bytes then gpi else Lookup(c, base, m, pa')
  {
    var c := Decode(r);
    EntriesAt(r, base, pa, Read(m, Cell0(c, base, pa)));
    RegisterDecodes(r);
    RegionSplit(r);
    UnitIsRegion(c, base, m, pa, pa');
    AddIsMapUpdate(c, base, m, pa, gpi, pa');
  }

  // ----- runs -----

  lemma AddedKeepsLayout(c: Config, base: int, m: Mem, pa: nat, gpi: nat)
    requires ConfigOk(c) && Layout(c, base, m) && gpi < 16 && gpi != 1
    ensures Layout(c, base, Added(c, base, m, pa, gpi))
  {
    var m' := Added(c, base, m, pa, gpi);
    forall i: nat, a | i < Pow2(c.pps - c.l0) && Owns(c, base, m', i, a) ensures Owns(c, base, m, i, a) {
      AddedTables(c, base, m, pa, gpi, i);
    }
  }

  lemma AddedTables(c: Config, base: int, m: Mem, pa: nat, gpi: nat, i: nat)
    requires ConfigOk(c) && Layout(c, base, m) && gpi < 16 && gpi != 1 && i < Pow2(c.pps - c.l0)
    ensures var d, d' := Read(m, base + 8 * i), Read(Added(c, base, m, pa, gpi), base + 8 * i);
            (IsTable(d') <==> IsTable(d)) && (IsTable(d) ==> TableBase(d') == TableBase(d))
  {
    AddedCells(c, base, m, pa, gpi);
    CellPlaces(c, base, m, pa);
    var (a, kind) := Decider(c, base, m, pa);
    assert Inside0(c, base, base + 8 * i);
    LowFieldKept(Read(m, a), FieldOf(c, kind, pa), gpi);
    if IsTable(Read(m, Cell0(c, base, pa))) { CleanTableSame(Read(m, Cell0(c, base, pa))); }
  }

  datatype Write = Write(pa: nat, gpi: nat)

  ghost function AddAll(c: Config, base: int, m: Mem, ws: seq<Write>): Mem
    requires ConfigOk(c)
  {
    if ws == [] then m
    else Added(c, base, AddAll(c, base, m, ws[..|ws| - 1]), ws[|ws| - 1].pa, ws[|ws| - 1].gpi)
  }

  /** The last write to the unit of an address, or its initial value. */
  ghost function LastWritten(c: Config, base: int, m: Mem, ws: seq<Write>, pa: nat): nat
    requires ConfigOk(c)
  {
    if ws == [] then Lookup(c, base, m, pa)
    else if SameUnit(c, base, m, ws[|ws| - 1].pa, pa) then ws[|ws| - 1].gpi
    else LastWritten(c, base, m, ws[..|ws| - 1], pa)
  }

  /** After any sequence of writes of valid values, every address reads what was last
      written to its unit, units being those of the initial table. */
  lemma {:induction false} RunIsMap(c: Config, base: int, m: Mem, ws: seq<Write>, pa: nat)
    requires ConfigOk(c) && Layout(c, base, m)
    requires forall i :: 0 <= i < |ws| ==> IsGpiValid(ws[i].gpi)
    ensures Layout(c, base, AddAll(c, base, m, ws))
    ensures Decider(c, base, AddAll(c, base, m, ws), pa) == Decider(c, base, m, pa)
    ensures Lookup(c, base, AddAll(c, base, m, ws), pa) == LastWritten(c, base, m, ws, pa)
  {
    if ws != [] {
      var w, rest := ws[|ws| - 1], ws[..|ws| - 1];
      var m1 := AddAll(c, base, m, rest);
      RunIsMap(c, base, m, rest, pa);
      RunIsMap(c, base, m, rest, w.pa);
      AddedKeepsLayout(c, base, m1, w.pa, w.gpi);
      AddedKeepsKinds(c, base, m1, w.pa, w.gpi, pa);
      AddIsMapUpdate(c, base, m1, w.pa, w.gpi, pa);
    }
  }
}
