/** The stage-1 editor as the source runs it, and whole runs of it. */
module StageEditor {
  import opened Arithmetic
  import opened Bits
  import opened StagePool
  import opened StageTables
  import opened Wrappers

  /** Number of levels for an input address size, as computed by the editor. */
  function Levels(ias: nat): (n: nat)
    requires 13 <= ias
    ensures 1 <= n <= 4
  {
    var n := (ias - 12 + 8) / 9;
    if n > 4 then 4 else n
  }

  /** Address bits below the index of a level, and bits of that index. */
  function BitsBelow(ias: nat, level: nat): nat
    requires 13 <= ias && level < Levels(ias)
  {
    (Levels(ias) - 1 - level) * 9 + 12
  }

  function BitsAt(ias: nat, level: nat): nat
    requires 13 <= ias && level < Levels(ias)
  {
    if level == 0 then ias - BitsBelow(ias, 0) else 9
  }

  /** (va >> below) & ((1 << here) - 1) */
  function Digit(va: nat, below: nat, here: nat): int { Shifted(va, below) % Pow2(here) }

  function Shifted(va: nat, below: nat): int { va / Pow2(below) }

  function Index(ias: nat, va: nat, level: nat): int
    requires 13 <= ias && level < Levels(ias)
  {
    Digit(va, BitsBelow(ias, level), BitsAt(ias, level))
  }

  function GeometryOf(ias: nat): Geometry
    requires 13 <= ias
  {
    Geometry(Levels(ias), Pow2(BitsAt(ias, 0)))
  }

  function PathOf(ias: nat, va: nat): (p: seq<int>)
    requires 13 <= ias
    ensures IsPath(GeometryOf(ias), p)
  {
    Pow2Of9();
    seq(Levels(ias), l requires 0 <= l < Levels(ias) => Index(ias, va, l))
  }

  lemma Pow2Of9()
    ensures Pow2(9) == ENTRIES
  {
    assert Pow2(4) == 16 && Pow2(9) == 32 * Pow2(4);
  }

  /** The address bits from a level's index upwards. */
  function Upper(ias: nat, va: nat, level: nat): int
    requires 13 <= ias && level < Levels(ias)
  {
    Shifted(va, BitsBelow(ias, level))
  }

  lemma UpperOfPage(ias: nat, va: nat, level: nat)
    requires 13 <= ias && level < Levels(ias)
    ensures Upper(ias, va, level) == va / PAGE / Pow2(BitsBelow(ias, level) - 12)
  {
    Pow2Of9();
    Pow2Sum(12, BitsBelow(ias, level) - 12);
    Pow2Sum(3, 9);
    DivideTwice(va, PAGE, Pow2(BitsBelow(ias, level) - 12));
  }

  lemma UpperAtTop(ias: nat, va: nat)
    requires 13 <= ias && va < Pow2(ias)
    ensures Upper(ias, va, 0) == Index(ias, va, 0)
  {
    BitsCover(ias);
    WholeDigit(va, BitsBelow(ias, 0), BitsAt(ias, 0), ias);
  }

  lemma BitsCover(ias: nat)
    requires 13 <= ias
    ensures BitsBelow(ias, 0) + BitsAt(ias, 0) == ias
  {
  }

  lemma WholeDigit(va: nat, below: nat, here: nat, all: nat)
    requires below + here == all && va < Pow2(all)
    ensures Shifted(va, below) == Digit(va, below, here)
  {
    Pow2Sum(below, here);
    BelowBoth(va, Pow2(below), Pow2(here));
  }

  lemma UpperStep(ias: nat, va: nat, level: nat)
    requires 13 <= ias && 0 < level < Levels(ias)
    ensures Upper(ias, va, level) == Upper(ias, va, level - 1) * ENTRIES + Index(ias, va, level)
  {
    var unit := Pow2(BitsBelow(ias, level));
    Pow2Of9();
    Pow2Sum(BitsBelow(ias, level), 9);
    DivideTwice(va, unit, ENTRIES);
  }

  /** Equal indices down to a level mean equal upper bits. */
  lemma {:induction false} IndicesDetermine(ias: nat, va: nat, vb: nat, level: nat)
    requires 13 <= ias && level < Levels(ias) && va < Pow2(ias) && vb < Pow2(ias)
    requires forall l :: 0 <= l < Levels(ias) ==> Index(ias, va, l) == Index(ias, vb, l)
    ensures Upper(ias, va, level) == Upper(ias, vb, level)
  {
    if level == 0 {
      UpperAtTop(ias, va);
      UpperAtTop(ias, vb);
    } else {
      IndicesDetermine(ias, va, vb, level - 1);
      UpperStep(ias, va, level);
      UpperStep(ias, vb, level);
    }
  }

  lemma SamePage(ias: nat, va: nat, vb: nat)
    requires 13 <= ias && va < Pow2(ias) && vb < Pow2(ias)
    requires forall l :: 0 <= l < Levels(ias) ==> Index(ias, va, l) == Index(ias, vb, l)
    ensures va / PAGE == vb / PAGE
  {
    var last := Levels(ias) - 1;
    IndicesDetermine(ias, va, vb, last);
    UpperOfPage(ias, va, last);
    UpperOfPage(ias, vb, last);
  }

  /** Two addresses take the same path exactly when they lie in the same page. */
  lemma PathIsPage(ias: nat, va: nat, vb: nat)
    requires 13 <= ias && va < Pow2(ias) && vb < Pow2(ias)
    ensures PathOf(ias, va) == PathOf(ias, vb) <==> va / PAGE == vb / PAGE
  {
    var p, q := PathOf(ias, va), PathOf(ias, vb);
    if p == q {
      forall l | 0 <= l < Levels(ias) ensures Index(ias, va, l) == Index(ias, vb, l) {
        assert p[l] == q[l];
      }
      SamePage(ias, va, vb);
    }
    if va / PAGE == vb / PAGE {
      forall l | 0 <= l < Levels(ias) ensures p[l] == q[l] {
        UpperOfPage(ias, va, l);
        UpperOfPage(ias, vb, l);
      }
    }
  }

  /** Page descriptor: valid page bits, the output page, and the attributes. */
  function Descriptor(pa: nat, attr: nat): nat { Or(TABLE_BITS + (pa - pa % PAGE), attr) }

  lemma DescriptorIsPage(pa: nat, attr: nat)
    ensures Descriptor(pa, attr) % 4 == 3
  {
    var k := pa / PAGE;
    assert TABLE_BITS + (pa - pa % PAGE) == 4 * (1024 * k) + 3;
    OrKeepsLowBits(TABLE_BITS + (pa - pa % PAGE), attr);
  }

  /** For 48 address bits: four levels, indexed by bits [47:39], [38:30], [29:21], [20:12]. */
  lemma FourLevels(va: nat)
    requires va < 0x1_0000_0000_0000
    ensures PathOf(48, va) == [va / 0x80_0000_0000, va / 0x4000_0000 % 512, va / 0x20_0000 % 512, va / 0x1000 % 512]
  {
    Pow2Of9();
    Pow2Sum(9, 3);
    Pow2Sum(12, 9);
    assert Pow2(21) == 0x20_0000;
    Pow2Sum(21, 9);
    assert Pow2(30) == 0x4000_0000;
    Pow2Sum(30, 9);
    assert Pow2(39) == 0x80_0000_0000;
    assert Levels(48) == 4;
    BelowBoth(va, 0x80_0000_0000, 512);
  }

  const PAGES: int := 0x10_0000_0000

  lemma LeafPowers()
    ensures Pow2(12) == 0x1000 && Pow2(36) == PAGES
  {
    Pow2Of9();
    Pow2Sum(9, 3);
    Pow2Sum(9, 9);
    assert Pow2(18) == 0x4_0000;
    Pow2Sum(18, 18);
  }

  /** A descriptor that maps to page number `page` with the attribute bits outside it. */
  ghost predicate MapsTo(d: nat, page: int, attr: nat) {
    && d / 0x1000 % PAGES == page
    && d % 0x1000 == Or(3, attr % 0x1000)
    && d / 0x1_0000_0000_0000 == attr / 0x1_0000_0000_0000
  }

  /** When the attribute leaves the address field alone, the descriptor written holds the output
      page in bits [47:12], 3 or-ed with the attribute below, and the attribute above. */
  lemma DescriptorMaps(pa: nat, attr: nat)
    requires pa < 0x1_0000_0000_0000 && attr / 0x1000 % PAGES == 0
    ensures MapsTo(Descriptor(pa, attr), pa / 0x1000, attr)
  {
    var x, low, high := pa / 0x1000, attr % 0x1000, attr / 0x1000 / PAGES;
    DivideTwice(attr, 0x1000, PAGES);
    Euclid(attr / 0x1000, PAGES);
    assert Descriptor(pa, attr) == Or(0x1000 * x + 3, attr);
    OrOfParts(x, high, low, 0x1000 * x + 3, attr);
    PartsOf(x, high, Or(3, low));
  }

  lemma OrOfParts(x: nat, high: nat, low: nat, u: nat, attr: nat)
    requires x < PAGES && low < 0x1000 && u == 0x1000 * x + 3 && attr == 0x1000 * (PAGES * high) + low
    ensures Or(u, attr) == 0x1000 * (PAGES * high + x) + Or(3, low) && Or(3, low) < 0x1000
  {
    var y := PAGES * high;
    OrAbovePages(x, high, y);
    OrPageParts(x, y, low, u, attr);
  }

  lemma OrPageParts(x: nat, y: nat, low: nat, u: nat, attr: nat)
    requires low < 0x1000 && u == 0x1000 * x + 3 && attr == 0x1000 * y + low
    ensures Or(u, attr) == 0x1000 * Or(x, y) + Or(3, low) && Or(3, low) < 0x1000
  {
    LeafPowers();
    ShiftIsProduct(x, 12);
    ShiftIsProduct(y, 12);
    OrSplit(12, u, x, 3, attr, y, low);
    ShiftIsProduct(Or(x, y), 12);
  }

  lemma OrAbovePages(x: nat, high: nat, y: nat)
    requires x < PAGES && y == PAGES * high
    ensures Or(x, y) == y + x
  {
    LeafPowers();
    ShiftIsProduct(0, 36);
    ShiftIsProduct(high, 36);
    OrSplit(36, x, 0, x, y, high, 0);
    OrZero(high);
    OrZero(x);
  }

  lemma PartsOf(x: nat, high: nat, low: nat)
    requires x < PAGES && low < 0x1000
    ensures var d := 0x1000 * (PAGES * high + x) + low;
            d / 0x1000 % PAGES == x && d % 0x1000 == low && d / 0x1_0000_0000_0000 == high
  {
    var d := 0x1000 * (PAGES * high + x) + low;
    RemainderUnique(d, 0x1000, PAGES * high + x, low);
    RemainderUnique(PAGES * high + x, PAGES, high, x);
    RemainderUnique(d, 0x1_0000_0000_0000, high, 0x1000 * x + low);
  }

  // ----- the editor -----

  function SpaceOf(ias: nat, root: int, ok: Access): Space
    requires 13 <= ias
  {
    Space(GeometryOf(ias), root, p => PathOf(ias, if p < 0 then 0 else p), Pow2(ias), ok)
  }

  lemma SpaceOfOk(ias: nat, root: int, ok: Access)
    requires 13 <= ias
    ensures SpaceOk(SpaceOf(ias, root, ok))
    ensures forall va: nat :: SpaceOf(ias, root, ok).path(va) == PathOf(ias, va)
  {
    var sp := SpaceOf(ias, root, ok);
    forall p ensures IsPath(sp.g, sp.path(p)) {
      assert sp.path(p) == PathOf(ias, if p < 0 then 0 else p);
    }
  }

  class Editor {
    const ias: nat
    const space: Space
    var mem: Mem
    var freePa: nat

    constructor (ias: nat, root: int, ok: Access, mem: Mem, freePa: nat)
      requires 13 <= ias
      ensures Valid() && this.ias == ias && space == SpaceOf(ias, root, ok) && this.mem == mem && this.freePa == freePa
    {
      SpaceOfOk(ias, root, ok);
      this.ias, this.space, this.mem, this.freePa := ias, SpaceOf(ias, root, ok), mem, freePa;
    }

    ghost predicate Valid() {
      13 <= ias && SpaceOk(space) && space.g == GeometryOf(ias)
    }

    /** add_mmu_entry, where none of the pages it takes needs to be mapped first. */
    method AddEntry(va: nat, pa: nat, attr: nat)
      requires Valid() && freePa % PAGE == 0
      requires Guarded(space, mem, freePa, space.root, 0, PathOf(ias, va))
      modifies this`mem, this`freePa
      ensures (mem, freePa) ==
              Insert(space.g, old(mem), old(freePa), space.root, 0, PathOf(ias, va), Descriptor(pa, attr))
    {
      var levels := (ias - 12 + 8) / 9;
      if levels > 4 { levels := 4; }
      Descend(va, Descriptor(pa, attr), levels, PathOf(ias, va));
    }

    /** The loop over the levels. */
    method Descend(va: nat, v: nat, levels: nat, ghost path: seq<int>)
      requires Valid() && freePa % PAGE == 0 && levels == Levels(ias)
      requires IsPath(space.g, path) && forall l :: 0 <= l < levels ==> path[l] == Index(ias, va, l)
      requires Guarded(space, mem, freePa, space.root, 0, path)
      modifies this`mem, this`freePa
      ensures (mem, freePa) == Insert(space.g, old(mem), old(freePa), space.root, 0, path, v)
    {
      var level := 0;
      var bitsBelow := (levels - 1) * 9 + 12;
      var bitsHere := ias - bitsBelow;
      var table := space.root;
      while level != levels - 1
        invariant level < levels && freePa % PAGE == 0
        invariant bitsBelow == BitsBelow(ias, level) && bitsHere == BitsAt(ias, level)
        invariant Guarded(space, mem, freePa, table, level, path)
        invariant Insert(space.g, mem, freePa, table, level, path, v) ==
                  Insert(space.g, old(mem), old(freePa), space.root, 0, path, v)
        decreases levels - level
      {
        var desc := table + 8 * Digit(va, bitsBelow, bitsHere);
        table := Step(desc, table, level, path, v);
        level := level + 1;
        bitsBelow := bitsBelow - 9;
        bitsHere := 9;
      }
      var last := table + 8 * Digit(va, bitsBelow, bitsHere);
      mem := mem[last := v];
    }

    /** One level down. */
    method Step(desc: int, t: int, ghost level: nat, ghost path: seq<int>, ghost v: nat) returns (table: int)
      requires SpaceOk(space) && freePa % PAGE == 0 && IsPath(space.g, path) && level + 1 < |path|
      requires desc == t + 8 * path[level] && Guarded(space, mem, freePa, t, level, path)
      modifies this`mem, this`freePa
      ensures freePa % PAGE == 0 && Guarded(space, mem, freePa, table, level + 1, path)
      ensures Insert(space.g, mem, freePa, table, level + 1, path, v) ==
              Insert(space.g, old(mem), old(freePa), t, level, path, v)
    {
      InsertStep(space.g, mem, freePa, t, level, path, v, desc);
      GuardedStep(space, mem, freePa, t, level, path, desc);
      table := FollowOrLink(desc);
    }

    /** The next table: the one the descriptor points to, or a fresh page linked there. */
    method FollowOrLink(desc: int) returns (table: int)
      requires SpaceOk(space) && freePa % PAGE == 0
      requires !Followed(Read(mem, desc)) ==> PageMapped(space, mem[desc := freePa + TABLE_BITS], freePa)
      modifies this`mem, this`freePa
      ensures freePa % PAGE == 0
      ensures if Followed(Read(old(mem), desc))
              then mem == old(mem) && freePa == old(freePa) && table == Target(Read(mem, desc))
              else && table == old(freePa) && freePa == old(freePa) + PAGE
                   && mem == old(mem)[desc := old(freePa) + TABLE_BITS]
    {
      var d := Read(mem, desc);
      if d == 0 || d / 2 % 2 == 0 || d % 16 == 0xF {
        table := Link(desc);
      } else {
        table := Target(d);
      }
    }

    /** A fresh page linked at the descriptor. */
    method Link(desc: int) returns (table: int)
      requires SpaceOk(space) && freePa % PAGE == 0
      requires PageMapped(space, mem[desc := freePa + TABLE_BITS], freePa)
      modifies this`mem, this`freePa
      ensures table == old(freePa) && freePa == old(freePa) + PAGE && freePa % PAGE == 0
      ensures mem == old(mem)[desc := old(freePa) + TABLE_BITS]
    {
      table := freePa;
      freePa := freePa + PAGE;
      var page := table - table % PAGE;
      mem := mem[desc := page + TABLE_BITS];
      if !PageMapped(space, mem, table) {
        // Here the code maps the fresh page to itself, by a call to itself.
        assert false;
      }
    }
  }

  lemma InsertStep(g: Geometry, m: Mem, free: int, t: int, level: nat, path: seq<int>, v: nat, a: int)
    requires GeometryOk(g) && IsPath(g, path) && level + 1 < |path| && free >= 0 && a == t + 8 * path[level]
    ensures Insert(g, m, free, t, level, path, v) ==
            if Followed(Read(m, a)) then Insert(g, m, free, Target(Read(m, a)), level + 1, path, v)
            else Insert(g, m[a := free + TABLE_BITS], free + PAGE, free, level + 1, path, v)
  {
  }

  // ----- runs -----

  datatype Edit = Edit(va: nat, pa: nat, attr: nat)
  datatype State = State(mem: Mem, free: nat, labels: Labels)
  datatype Trace = Start(s: State) | Then(before: Trace, edit: Edit, s: State)

  ghost function Apply(sp: Space, s: State, e: Edit): State
    requires SpaceOk(sp)
  {
    var (m, free) := Insert(sp.g, s.mem, s.free, sp.root, 0, sp.path(e.va), Descriptor(e.pa, e.attr));
    State(m, if free >= 0 then free else 0, Grow(sp.g, s.mem, s.free, sp.root, 0, sp.path(e.va), s.labels))
  }

  /** The tables are a tree under the root, outside the pool that ends at `end`. */
  ghost predicate Sound(sp: Space, end: int, s: State)
    requires SpaceOk(sp)
  {
    Tree(sp.g, s.mem, s.labels, s.free, end) && sp.root in s.labels && s.labels[sp.root] == []
  }

  /** The pool has a page for each table the edit may create. */
  ghost predicate EnoughPages(sp: Space, end: int, s: State) {
    s.free + PAGE * (sp.g.levels - 1) <= end
  }

  /** The code calls itself for none of the pages the edit takes. */
  ghost predicate NoSelfCall(sp: Space, s: State, e: Edit)
    requires SpaceOk(sp)
  {
    Guarded(sp, s.mem, s.free, sp.root, 0, sp.path(e.va))
  }

  ghost predicate Run(sp: Space, end: int, tr: Trace)
    requires SpaceOk(sp)
  {
    match tr
    case Start(s) => Sound(sp, end, s)
    case Then(before, e, s) =>
      && Run(sp, end, before) && EnoughPages(sp, end, before.s) && NoSelfCall(sp, before.s, e)
      && s == Apply(sp, before.s, e)
  }

  lemma EditStart(sp: Space, end: int, s: State, path: seq<int>)
    requires SpaceOk(sp) && Sound(sp, end, s) && EnoughPages(sp, end, s) && IsPath(sp.g, path)
    ensures At(sp.g, s.mem, s.labels, s.free, end, sp.root, 0, path)
  {
    assert path[..0] == [];
  }

  lemma EditKeepsSound(sp: Space, end: int, s: State, e: Edit)
    requires SpaceOk(sp) && Sound(sp, end, s) && EnoughPages(sp, end, s)
    ensures Sound(sp, end, Apply(sp, s, e))
  {
    var path := sp.path(e.va);
    EditStart(sp, end, s, path);
    InsertKeepsTree(sp.g, s.mem, s.labels, s.free, end, sp.root, 0, path, Descriptor(e.pa, e.attr));
  }

  // ----- which edits avoid the self-call, and keep the next one avoiding it -----

  /** The edit takes only pages that are mapped and do not lie behind the descriptor it
      replaces, and unmaps no other page of the pool. */
  ghost predicate Allowed(sp: Space, end: int, s: State, e: Edit)
    requires SpaceOk(sp)
  {
    var path := sp.path(e.va);
    var k := ReplacedAt(sp.g, s.mem, sp.root, 0, path);
    var from := s.free + PAGE * (|path| - 1 - k);
    Usable(sp, s.mem, path, k, s.free, from) && Undisturbed(sp, path, k, from, end, Descriptor(e.pa, e.attr))
  }

  /** On a mapped pool, an edit avoids the self-call and leaves the rest of the pool mapped
      exactly when it is allowed. */
  lemma AllowedIff(sp: Space, end: int, s: State, e: Edit)
    requires SpaceOk(sp) && Sound(sp, end, s) && EnoughPages(sp, end, s)
    requires PoolMapped(sp, s.mem, s.free, end)
    ensures var s' := Apply(sp, s, e);
            Allowed(sp, end, s, e) <==> NoSelfCall(sp, s, e) && PoolMapped(sp, s'.mem, s'.free, end)
  {
    var path, v := sp.path(e.va), Descriptor(e.pa, e.attr);
    EditStart(sp, end, s, path);
    DescriptorIsPage(e.pa, e.attr);
    GuardedIff(sp, s.mem, s.labels, s.free, end, sp.root, 0, path);
    PagesTaken(sp.g, s.mem, s.labels, s.free, end, sp.root, 0, path, v);
    PoolKept(sp, s.mem, s.labels, s.free, end, path, v);
  }

  /** A run all of whose edits are allowed, over a pool mapped at the start. */
  ghost predicate AllowedRun(sp: Space, end: int, tr: Trace)
    requires SpaceOk(sp)
  {
    match tr
    case Start(s) => Sound(sp, end, s) && PoolMapped(sp, s.mem, s.free, end)
    case Then(before, e, s) =>
      && AllowedRun(sp, end, before) && EnoughPages(sp, end, before.s) && Allowed(sp, end, before.s, e)
      && s == Apply(sp, before.s, e)
  }

  /** Such a run never meets the self-call, and keeps the pool mapped. */
  lemma {:induction false} AllowedRunIsRun(sp: Space, end: int, tr: Trace)
    requires SpaceOk(sp) && AllowedRun(sp, end, tr)
    ensures Run(sp, end, tr) && Sound(sp, end, tr.s) && PoolMapped(sp, tr.s.mem, tr.s.free, end)
  {
    if tr.Then? {
      AllowedRunIsRun(sp, end, tr.before);
      AllowedIff(sp, end, tr.before.s, tr.edit);
      EditKeepsSound(sp, end, tr.before.s, tr.edit);
    }
  }

  // ----- what every run keeps -----

  /** Main theorem: after every run of edits that avoid the self-call the tables are still a
      tree of distinct pages, and the last edit acted on the translation of every address
      exactly as an update of its own address, faulting only addresses whose descriptor it
      replaced. */
  lemma {:induction false} RunIsMapUpdate(sp: Space, end: int, tr: Trace, va: nat)
    requires SpaceOk(sp) && Run(sp, end, tr)
    ensures Sound(sp, end, tr.s)
    ensures tr.Then? ==> EditIsUpdate(sp, tr.before.s, tr.edit, tr.s, sp.path(va))
  {
    if tr.Then? {
      RunIsMapUpdate(sp, end, tr.before, va);
      EditKeepsSound(sp, end, tr.before.s, tr.edit);
      EditUpdates(sp, end, tr.before.s, tr.edit, sp.path(va));
    }
  }

  /** What one edit does to the translation of a path. */
  ghost predicate EditIsUpdate(sp: Space, s: State, e: Edit, s': State, path: seq<int>)
    requires SpaceOk(sp) && IsPath(sp.g, path)
  {
    var edited := sp.path(e.va);
    var k := ReplacedAt(sp.g, s.mem, sp.root, 0, edited);
    Walk(sp.g, s'.mem, sp.root, 0, path) ==
      if path == edited then Leaf(Descriptor(e.pa, e.attr))
      else if path[..k + 1] == edited[..k + 1] then Fault
      else Walk(sp.g, s.mem, sp.root, 0, path)
  }

  lemma EditUpdates(sp: Space, end: int, s: State, e: Edit, path: seq<int>)
    requires SpaceOk(sp) && Sound(sp, end, s) && EnoughPages(sp, end, s) && IsPath(sp.g, path)
    ensures EditIsUpdate(sp, s, e, Apply(sp, s, e), path)
  {
    EditStart(sp, end, s, sp.path(e.va));
    DescriptorIsPage(e.pa, e.attr);
    InsertIsMapUpdate(sp.g, s.mem, s.labels, s.free, end, sp.root, sp.path(e.va), Descriptor(e.pa, e.attr), path);
  }

  /** Replaying a run on a plain map from paths to descriptors. */
  ghost function Flat(sp: Space, tr: Trace): map<seq<int>, nat> {
    match tr
    case Start(_) => map[]
    case Then(before, e, _) => Flat(sp, before)[sp.path(e.va) := Descriptor(e.pa, e.attr)]
  }

  /** Main theorem: over every run, each page ever edited translates to what its last
      edit wrote, whatever other pages were edited before or after. */
  lemma {:induction false} RunRefinesFlat(sp: Space, end: int, tr: Trace, path: seq<int>)
    requires SpaceOk(sp) && Run(sp, end, tr) && path in Flat(sp, tr)
    ensures IsPath(sp.g, path) && Mapped(sp.g, tr.s.mem, sp.root, 0, path)
    ensures Walk(sp.g, tr.s.mem, sp.root, 0, path) == Leaf(Flat(sp, tr)[path])
  {
    var s, e := tr.before.s, tr.edit;
    var edited, v := sp.path(e.va), Descriptor(e.pa, e.attr);
    RunIsMapUpdate(sp, end, tr.before, 0);
    EditStart(sp, end, s, edited);
    if path == edited {
      DescriptorIsPage(e.pa, e.attr);
      InsertTranslates(sp.g, s.mem, s.labels, s.free, end, sp.root, 0, edited, v);
    } else {
      RunRefinesFlat(sp, end, tr.before, path);
      InsertKeepsMapped(sp.g, s.mem, s.labels, s.free, end, sp.root, edited, v, path);
    }
  }

  /** The last edit of a path in a run, if any. */
  ghost function LastEdit(sp: Space, tr: Trace, path: seq<int>): Option<Edit> {
    match tr
    case Start(_) => None
    case Then(before, e, _) => if sp.path(e.va) == path then Some(e) else LastEdit(sp, before, path)
  }

  lemma {:induction false} FlatIsLast(sp: Space, tr: Trace, path: seq<int>)
    ensures path in Flat(sp, tr) <==> LastEdit(sp, tr, path).Some?
    ensures LastEdit(sp, tr, path).Some? ==>
              var e := LastEdit(sp, tr, path).value; Flat(sp, tr)[path] == Descriptor(e.pa, e.attr)
  {
    if tr.Then? { FlatIsLast(sp, tr.before, path); }
  }

  /** Main theorem, on addresses: over every run, a page that was ever edited walks to a leaf
      whose output page is that of its last edit, with that edit's attributes. */
  lemma RunMapsPages(sp: Space, end: int, tr: Trace, va: nat)
    requires SpaceOk(sp) && Run(sp, end, tr) && LastEdit(sp, tr, sp.path(va)).Some?
    ensures var e, o := LastEdit(sp, tr, sp.path(va)).value, Walk(sp.g, tr.s.mem, sp.root, 0, sp.path(va));
            && o.Leaf?
            && (e.pa < 0x1_0000_0000_0000 && e.attr / 0x1000 % PAGES == 0 ==> MapsTo(o.desc, e.pa / 0x1000, e.attr))
  {
    var path := sp.path(va);
    FlatIsLast(sp, tr, path);
    RunRefinesFlat(sp, end, tr, path);
    var e := LastEdit(sp, tr, path).value;
    if e.pa < 0x1_0000_0000_0000 && e.attr / 0x1000 % PAGES == 0 { DescriptorMaps(e.pa, e.attr); }
  }

  // ----- an edit that meets the self-call -----

  /** When the first page to be taken lies behind the replaced descriptor the code calls itself. */
  lemma TakesSharedPage(sp: Space, end: int, s: State, e: Edit)
    requires SpaceOk(sp) && Sound(sp, end, s) && EnoughPages(sp, end, s)
    requires var path := sp.path(e.va);
             var k := ReplacedAt(sp.g, s.mem, sp.root, 0, path);
             k < |path| - 1 && Shares(sp, s.free, path, k)
    ensures !NoSelfCall(sp, s, e) && !Allowed(sp, end, s, e)
  {
    var path := sp.path(e.va);
    var k := ReplacedAt(sp.g, s.mem, sp.root, 0, path);
    EditStart(sp, end, s, path);
    GuardedIff(sp, s.mem, s.labels, s.free, end, sp.root, 0, path);
    assert PoolPage(s.free, s.free, s.free + PAGE * (|path| - 1 - k));
    assert !UsablePage(sp, s.mem, path, k, s.free);
  }

  const TOP: int := 0x1000
  const POOL: nat := 0x2000
  const POOL_END: int := 0x1_0000

  /** Two levels over 4 MB; the top table maps the first 2 MB, with the pool in it, by a block. */
  function SmallSpace(): Space { SpaceOf(22, TOP, d => true) }

  const BLOCK_STATE := State(map[TOP := 1], POOL, map[TOP := []])

  /** In the first 2 MB the first index is 0. */
  lemma LowPath(va: nat)
    requires va < 0x20_0000
    ensures PathOf(22, va)[0] == 0 && |PathOf(22, va)| == 2
  {
    assert Levels(22) == 2;
    Pow2Of9();
    Pow2Sum(9, 9);
    Pow2Sum(18, 3);
    assert Pow2(21) == 0x20_0000;
    assert Index(22, va, 0) == Digit(va, 21, 1);
    RemainderUnique(va, 0x20_0000, 0, va);
  }

  /** Mapping any page of the first 2 MB replaces the block, and the page taken for the new
      table lies behind it: the state is sound, the pool mapped and large enough, and still
      the code calls itself. */
  lemma SelfCallExample(e: Edit)
    requires e.va < 0x20_0000
    ensures SpaceOk(SmallSpace()) && Sound(SmallSpace(), POOL_END, BLOCK_STATE)
    ensures EnoughPages(SmallSpace(), POOL_END, BLOCK_STATE)
    ensures PoolMapped(SmallSpace(), BLOCK_STATE.mem, POOL, POOL_END)
    ensures !NoSelfCall(SmallSpace(), BLOCK_STATE, e) && !Allowed(SmallSpace(), POOL_END, BLOCK_STATE, e)
  {
    SmallSound();
    SmallMapped();
    SmallShares(e.va);
    TakesSharedPage(SmallSpace(), POOL_END, BLOCK_STATE, e);
  }

  lemma SmallShares(va: nat)
    requires va < 0x20_0000
    ensures SpaceOk(SmallSpace()) && |SmallSpace().path(va)| == 2
    ensures ReplacedAt(SmallSpace().g, BLOCK_STATE.mem, TOP, 0, SmallSpace().path(va)) == 0
    ensures Shares(SmallSpace(), POOL, SmallSpace().path(va), 0)
  {
    var sp := SmallSpace();
    SpaceOfOk(22, TOP, d => true);
    assert sp.path(va) == PathOf(22, va) && sp.path(POOL) == PathOf(22, POOL);
    LowPath(va);
    LowPath(POOL);
    SharedIndex(sp.path(va), sp.path(POOL), 0);
    BlockAtTop(sp.g, BLOCK_STATE.mem, TOP, sp.path(va));
  }

  lemma BlockAtTop(g: Geometry, m: Mem, t: int, path: seq<int>)
    requires GeometryOk(g) && IsPath(g, path) && |path| > 1 && Read(m, t + 8 * path[0]) == 1
    ensures ReplacedAt(g, m, t, 0, path) == 0
  {
  }

  lemma SmallSound()
    ensures SpaceOk(SmallSpace()) && Sound(SmallSpace(), POOL_END, BLOCK_STATE)
    ensures EnoughPages(SmallSpace(), POOL_END, BLOCK_STATE)
  {
    SpaceOfOk(22, TOP, d => true);
    assert Levels(22) == 2 && BitsAt(22, 0) == 1 && Pow2(1) == 2;
    TopTableOnly(GeometryOf(22));
  }

  lemma TopTableOnly(g: Geometry)
    requires g == Geometry(2, 2)
    ensures Tree(g, BLOCK_STATE.mem, BLOCK_STATE.labels, POOL, POOL_END)
  {
    var m, ls := BLOCK_STATE.mem, BLOCK_STATE.labels;
    assert LabelOk(g, []) && Size(g, []) == 16;
    forall a | POOL <= a < POOL_END ensures Read(m, a) == 0 {
    }
    forall t, i | t in ls && |ls[t]| + 1 < g.levels && 0 <= i < EntriesAt(g, |ls[t]|) ensures CellOk(m, ls, t, i) {
      assert t == TOP && Read(m, t + 8 * i) <= 1;
    }
  }

  lemma SmallMapped()
    ensures SpaceOk(SmallSpace()) && PoolMapped(SmallSpace(), BLOCK_STATE.mem, POOL, POOL_END)
  {
    var sp := SmallSpace();
    SpaceOfOk(22, TOP, d => true);
    forall p | PoolPage(p, POOL, POOL_END) ensures PageMapped(sp, BLOCK_STATE.mem, p) {
      assert sp.path(p) == PathOf(22, p);
      LowPath(p);
      SmallLimit();
      BlockGrants(sp, BLOCK_STATE.mem, p);
    }
  }

  lemma BlockGrants(sp: Space, m: Mem, p: int)
    requires SpaceOk(sp) && p < sp.limit && |sp.path(p)| > 1 && Read(m, sp.root + 8 * sp.path(p)[0]) == 1 && sp.ok(1)
    ensures PageMapped(sp, m, p)
  {
  }

  lemma SmallLimit()
    ensures Pow2(22) == 0x40_0000
  {
    Pow2Of9();
    Pow2Sum(9, 9);
    Pow2Sum(18, 4);
  }
}
