/** In-place editing of the EL3 stage-1 translation tables, 4 KB granule. */
module StageTables {
  import opened Arithmetic

  const PAGE: int := 4096
  const TABLE_BITS: int := 3
  const ADDRESS_LIMIT: int := 0x1_0000_0000_0000

  // ----- geometry -----

  const ENTRIES: int := 512

  /** Number of levels and number of entries of the top table. */
  datatype Geometry = Geometry(levels: nat, top: int)

  predicate GeometryOk(g: Geometry) { 1 <= g.levels <= 4 && g.top >= 1 }

  function EntriesAt(g: Geometry, level: nat): int { if level == 0 then g.top else ENTRIES }

  /** The indices a walk uses, one per level. */
  predicate IsPath(g: Geometry, path: seq<int>) {
    |path| == g.levels && forall l :: 0 <= l < |path| ==> 0 <= path[l] < EntriesAt(g, l)
  }

  // ----- memory and descriptors -----

  type Mem = map<int, nat>

  function Read(m: Mem, a: int): nat { if a in m then m[a] else 0 }

  /** The editor follows a descriptor unless it is zero, has bit 1 clear, or ends in 0xF. */
  predicate Followed(d: nat) { d != 0 && d / 2 % 2 == 1 && d % 16 != 15 }

  /** Output address bits [47:12]. */
  function Target(d: nat): int { d / 4096 % 0x10_0000_0000 * 4096 }

  lemma TargetOfTable(page: int)
    requires 0 <= page < ADDRESS_LIMIT && page % PAGE == 0
    ensures Target(page + TABLE_BITS) == page && Followed(page + TABLE_BITS) && (page + TABLE_BITS) % 4 == 3
  {
    TableDescriptor(page / PAGE);
  }

  lemma TableDescriptor(k: int)
    requires 0 <= k < 0x10_0000_0000
    ensures Target(4096 * k + 3) == 4096 * k && Followed(4096 * k + 3) && (4096 * k + 3) % 4 == 3
  {
    LowBits(4096 * k + 3, 256 * k);
    RemainderUnique(4096 * k + 3, 4096, k, 3);
    RemainderUnique(k, 0x10_0000_0000, 0, k);
  }

  lemma LowBits(d: nat, high: nat)
    requires d == 16 * high + 3
    ensures d % 16 == 3 && d % 4 == 3 && d / 2 % 2 == 1
  {
  }

  /** Result of the hardware walk. */
  datatype Outcome = Leaf(desc: nat) | Block(level: nat, desc: nat) | Fault

  /** The walk of the hardware from a table at a level: low bits 11 a table, 01 a block. */
  function Walk(g: Geometry, m: Mem, t: int, level: nat, path: seq<int>): Outcome
    requires GeometryOk(g) && IsPath(g, path) && level < |path|
    decreases |path| - level
  {
    var d := Read(m, t + 8 * path[level]);
    if level == |path| - 1 then if d % 4 == 3 then Leaf(d) else Fault
    else if d % 4 == 3 then Walk(g, m, Target(d), level + 1, path)
    else if d % 4 == 1 then Block(level, d)
    else Fault
  }

  /** What the editor does below a table: follow or create tables down to the last
      level and write the descriptor there. Also returns the next free page. */
  ghost function Insert(g: Geometry, m: Mem, free: int, t: int, level: nat, path: seq<int>, v: nat): (Mem, int)
    requires GeometryOk(g) && IsPath(g, path) && level < |path| && free >= 0
    decreases |path| - level
  {
    var a := t + 8 * path[level];
    if level == |path| - 1 then (m[a := v], free)
    else if Followed(Read(m, a)) then Insert(g, m, free, Target(Read(m, a)), level + 1, path, v)
    else Insert(g, m[a := free + TABLE_BITS], free + PAGE, free, level + 1, path, v)
  }

  /** Level of the first descriptor the editor replaces; the last level if none. */
  ghost function ReplacedAt(g: Geometry, m: Mem, t: int, level: nat, path: seq<int>): (k: nat)
    requires GeometryOk(g) && IsPath(g, path) && level < |path|
    ensures level <= k < |path|
    decreases |path| - level
  {
    var d := Read(m, t + 8 * path[level]);
    if level == |path| - 1 || !Followed(d) then level else ReplacedAt(g, m, Target(d), level + 1, path)
  }

  /** The descriptor a walk of the tables reads at level k. */
  ghost function DescriptorAt(g: Geometry, m: Mem, t: int, level: nat, path: seq<int>, k: nat): nat
    requires GeometryOk(g) && IsPath(g, path) && level <= k < |path|
    decreases k - level
  {
    var d := Read(m, t + 8 * path[level]);
    if k == level then d else DescriptorAt(g, m, d / 0x1000 % 0x10_0000_0000 * 0x1000, level + 1, path, k)
  }

  /** Which descriptor that is: the first above the last level with bit 1 clear (empty or a
      block) or with low bits 0xF. */
  lemma {:induction false} ReplacedExactly(g: Geometry, m: Mem, t: int, level: nat, path: seq<int>)
    requires GeometryOk(g) && IsPath(g, path) && level < |path|
    ensures var k := ReplacedAt(g, m, t, level, path);
            && (forall l :: level <= l < k ==>
                  var d := DescriptorAt(g, m, t, level, path, l); d / 2 % 2 == 1 && d % 16 != 15)
            && (k < |path| - 1 ==> var d := DescriptorAt(g, m, t, level, path, k); d / 2 % 2 == 0 || d % 16 == 15)
    decreases |path| - level
  {
    var d := Read(m, t + 8 * path[level]);
    if level < |path| - 1 && Followed(d) { ReplacedExactly(g, m, Target(d), level + 1, path); }
  }

  // ----- the tables form a tree -----

  /** Every table page, labelled with the indices that lead to it. */
  type Labels = map<int, seq<int>>

  ghost predicate LabelOk(g: Geometry, tag: seq<int>)
    requires GeometryOk(g)
  {
    |tag| < g.levels && forall l :: 0 <= l < |tag| ==> 0 <= tag[l] < EntriesAt(g, l)
  }

  ghost function Size(g: Geometry, tag: seq<int>): int
    requires GeometryOk(g) && LabelOk(g, tag)
  {
    8 * EntriesAt(g, |tag|)
  }

  ghost predicate Apart(g: Geometry, ls: Labels, t: int, u: int)
    requires GeometryOk(g) && t in ls && u in ls && LabelOk(g, ls[t]) && LabelOk(g, ls[u])
  {
    t + Size(g, ls[t]) <= u || u + Size(g, ls[u]) <= t
  }

  /** Above the last level: bit 1 comes with the valid bit, and a table descriptor
      points to the table labelled one index further. */
  ghost predicate CellOk(m: Mem, ls: Labels, t: int, i: int)
    requires t in ls
  {
    var d := Read(m, t + 8 * i);
    && (d / 2 % 2 == 1 ==> d % 4 == 3)
    && (d % 4 == 3 ==> Target(d) in ls && ls[Target(d)] == ls[t] + [i])
  }

  /** Distinct pages, all outside the still zero part of the free pool [free, end). */
  ghost predicate Layout(g: Geometry, m: Mem, ls: Labels, free: int, end: int)
    requires GeometryOk(g)
  {
    && 0 <= free <= end <= ADDRESS_LIMIT && free % PAGE == 0
    && (forall t :: t in ls ==> LabelOk(g, ls[t]) && (t + Size(g, ls[t]) <= free || end <= t))
    && (forall t, u {:trigger Apart(g, ls, t, u)} :: t in ls && u in ls && t != u ==> Apart(g, ls, t, u))
    && (forall a :: free <= a < end ==> Read(m, a) == 0)
  }

  ghost predicate Cells(g: Geometry, m: Mem, ls: Labels)
    requires GeometryOk(g) && forall t :: t in ls ==> LabelOk(g, ls[t])
  {
    forall t, i {:trigger CellOk(m, ls, t, i)} ::
      t in ls && |ls[t]| + 1 < g.levels && 0 <= i < EntriesAt(g, |ls[t]|) ==> CellOk(m, ls, t, i)
  }

  ghost predicate Tree(g: Geometry, m: Mem, ls: Labels, free: int, end: int)
    requires GeometryOk(g)
  {
    Layout(g, m, ls, free, end) && Cells(g, m, ls)
  }

  /** Two cells of tables are the same address only if they are the same cell. */
  lemma CellsDiffer(g: Geometry, ls: Labels, t: int, i: int, u: int, j: int)
    requires GeometryOk(g) && t in ls && u in ls && LabelOk(g, ls[t]) && LabelOk(g, ls[u])
    requires t != u ==> Apart(g, ls, t, u)
    requires 0 <= i < EntriesAt(g, |ls[t]|) && 0 <= j < EntriesAt(g, |ls[u]|)
    ensures t + 8 * i == u + 8 * j <==> t == u && i == j
  {
  }

  lemma PageSize(g: Geometry, tag: seq<int>)
    requires GeometryOk(g) && LabelOk(g, tag) && tag != []
    ensures Size(g, tag) == PAGE
  {
  }

  lemma CellOutsidePool(g: Geometry, m: Mem, ls: Labels, free: int, end: int, t: int, i: int)
    requires GeometryOk(g) && Layout(g, m, ls, free, end) && t in ls && 0 <= i < EntriesAt(g, |ls[t]|)
    ensures !(free <= t + 8 * i < end)
  {
  }

  // ----- one step of the editor -----

  /** Linking a fresh page under cell (t, i) keeps the tree. */
  lemma LinkKeepsTree(g: Geometry, m: Mem, ls: Labels, free: int, end: int, t: int, i: int)
    requires GeometryOk(g) && Tree(g, m, ls, free, end) && free + PAGE <= end
    requires t in ls && |ls[t]| + 1 < g.levels && 0 <= i < EntriesAt(g, |ls[t]|)
    ensures Tree(g, m[t + 8 * i := free + TABLE_BITS], ls[free := ls[t] + [i]], free + PAGE, end)
    ensures free !in ls
  {
    LinkKeepsLayout(g, m, ls, free, end, t, i);
    var m', ls' := m[t + 8 * i := free + TABLE_BITS], ls[free := ls[t] + [i]];
    TargetOfTable(free);
    CellOutsidePool(g, m, ls, free, end, t, i);
    PageSize(g, ls'[free]);
    forall u, j | u in ls' && |ls'[u]| + 1 < g.levels && 0 <= j < EntriesAt(g, |ls'[u]|)
      ensures CellOk(m', ls', u, j)
    {
      if u in ls {
        CellsDiffer(g, ls, t, i, u, j);
        assert CellOk(m, ls, u, j);
      } else {
        assert Read(m, u + 8 * j) == 0;
      }
    }
  }

  lemma LinkKeepsLayout(g: Geometry, m: Mem, ls: Labels, free: int, end: int, t: int, i: int)
    requires GeometryOk(g) && Layout(g, m, ls, free, end) && free + PAGE <= end
    requires t in ls && |ls[t]| + 1 < g.levels && 0 <= i < EntriesAt(g, |ls[t]|)
    ensures Layout(g, m[t + 8 * i := free + TABLE_BITS], ls[free := ls[t] + [i]], free + PAGE, end)
    ensures free !in ls
  {
    var m', ls' := m[t + 8 * i := free + TABLE_BITS], ls[free := ls[t] + [i]];
    assert LabelOk(g, ls[t] + [i]);
    PageSize(g, ls[t] + [i]);
    assert free !in ls;
    CellOutsidePool(g, m, ls, free, end, t, i);
    forall x | free + PAGE <= x < end ensures Read(m', x) == 0 { assert Read(m, x) == 0; }
    forall u, w | u in ls' && w in ls' && u != w ensures Apart(g, ls', u, w) {
      if u in ls && w in ls { assert Apart(g, ls, u, w); }
    }
  }

  /** Writing a last-level cell keeps the tree. */
  lemma LeafKeepsTree(g: Geometry, m: Mem, ls: Labels, free: int, end: int, t: int, i: int, v: nat)
    requires GeometryOk(g) && Tree(g, m, ls, free, end)
    requires t in ls && |ls[t]| + 1 == g.levels && 0 <= i < EntriesAt(g, |ls[t]|)
    ensures Tree(g, m[t + 8 * i := v], ls, free, end)
  {
    var m' := m[t + 8 * i := v];
    CellOutsidePool(g, m, ls, free, end, t, i);
    forall a | free <= a < end ensures Read(m', a) == 0 { assert Read(m, a) == 0; }
    forall u, j | u in ls && |ls[u]| + 1 < g.levels && 0 <= j < EntriesAt(g, |ls[u]|)
      ensures CellOk(m', ls, u, j)
    {
      CellsDiffer(g, ls, t, i, u, j);
      assert CellOk(m, ls, u, j);
    }
  }

  // ----- the whole edit -----

  /** The labels after Insert. */
  ghost function Grow(g: Geometry, m: Mem, free: int, t: int, level: nat, path: seq<int>, ls: Labels): Labels
    requires GeometryOk(g) && IsPath(g, path) && level < |path| && free >= 0
    decreases |path| - level
  {
    var a := t + 8 * path[level];
    if level == |path| - 1 then ls
    else if Followed(Read(m, a)) then Grow(g, m, free, Target(Read(m, a)), level + 1, path, ls)
    else Grow(g, m[a := free + TABLE_BITS], free + PAGE, free, level + 1, path, ls[free := path[..level + 1]])
  }

  /** The editor stands at table t, reached by the first `level` indices of the path, with pages to spare. */
  ghost predicate At(g: Geometry, m: Mem, ls: Labels, free: int, end: int, t: int, level: nat, path: seq<int>)
    requires GeometryOk(g)
  {
    && Tree(g, m, ls, free, end) && IsPath(g, path) && level < |path|
    && t in ls && ls[t] == path[..level]
    && free + PAGE * (|path| - 1 - level) <= end
  }

  /** Both ways down to the next level lead to the table labelled one index further. */
  lemma StepDown(g: Geometry, m: Mem, ls: Labels, free: int, end: int, t: int, level: nat, path: seq<int>)
    requires GeometryOk(g) && At(g, m, ls, free, end, t, level, path) && level + 1 < |path|
    ensures var a := t + 8 * path[level];
            if Followed(Read(m, a))
            then Read(m, a) % 4 == 3 && At(g, m, ls, free, end, Target(Read(m, a)), level + 1, path)
            else && free !in ls && (free + TABLE_BITS) % 4 == 3 && Target(free + TABLE_BITS) == free
                 && At(g, m[a := free + TABLE_BITS], ls[free := path[..level + 1]], free + PAGE, end, free,
                     level + 1, path)
  {
    assert path[..level] + [path[level]] == path[..level + 1];
    if Followed(Read(m, t + 8 * path[level])) {
      assert CellOk(m, ls, t, path[level]);
    } else {
      LinkKeepsTree(g, m, ls, free, end, t, path[level]);
      TargetOfTable(free);
    }
  }

  /** Every edit keeps the tables a tree of distinct pages, and keeps all labels. */
  lemma {:induction false} InsertKeepsTree(g: Geometry, m: Mem, ls: Labels, free: int, end: int, t: int, level: nat,
      path: seq<int>, v: nat)
    requires GeometryOk(g) && At(g, m, ls, free, end, t, level, path)
    ensures var (m', free') := Insert(g, m, free, t, level, path, v);
            && Tree(g, m', Grow(g, m, free, t, level, path, ls), free', end)
            && free <= free' <= free + PAGE * (|path| - 1 - level)
    ensures var ls' := Grow(g, m, free, t, level, path, ls);
            forall u :: u in ls ==> u in ls' && ls'[u] == ls[u]
    decreases |path| - level
  {
    if level == |path| - 1 {
      LeafKeepsTree(g, m, ls, free, end, t, path[level], v);
    } else {
      StepDown(g, m, ls, free, end, t, level, path);
      var a := t + 8 * path[level];
      if Followed(Read(m, a)) {
        InsertKeepsTree(g, m, ls, free, end, Target(Read(m, a)), level + 1, path, v);
      } else {
        InsertKeepsTree(g, m[a := free + TABLE_BITS], ls[free := path[..level + 1]], free + PAGE, end, free,
            level + 1, path, v);
      }
    }
  }

  /** Cell (u, i) lies on the part of the path at or below `level`. */
  ghost predicate OnPath(ls: Labels, path: seq<int>, level: nat, u: int, i: int)
    requires u in ls
  {
    level <= |ls[u]| < |path| && ls[u] == path[..|ls[u]|] && i == path[|ls[u]|]
  }

  /** An edit touches no table cell off its path. */
  lemma {:induction false} InsertUnchanged(g: Geometry, m: Mem, ls: Labels, free: int, end: int, t: int, level: nat,
      path: seq<int>, v: nat, u: int, i: int)
    requires GeometryOk(g) && At(g, m, ls, free, end, t, level, path)
    requires u in ls && 0 <= i < EntriesAt(g, |ls[u]|) && !OnPath(ls, path, level, u, i)
    ensures Read(Insert(g, m, free, t, level, path, v).0, u + 8 * i) == Read(m, u + 8 * i)
    decreases |path| - level
  {
    CellsDiffer(g, ls, t, path[level], u, i);
    if level + 1 < |path| {
      StepDown(g, m, ls, free, end, t, level, path);
      var a := t + 8 * path[level];
      if Followed(Read(m, a)) {
        InsertUnchanged(g, m, ls, free, end, Target(Read(m, a)), level + 1, path, v, u, i);
      } else {
        InsertUnchanged(g, m[a := free + TABLE_BITS], ls[free := path[..level + 1]], free + PAGE, end, free,
            level + 1, path, v, u, i);
      }
    }
  }

  /** The table the editor moves to, with the memory, labels and free page it then has. */
  ghost function Next(m: Mem, ls: Labels, free: int, t: int, level: nat, path: seq<int>): (Mem, Labels, int, int)
    requires level < |path| && free >= 0
  {
    var a := t + 8 * path[level];
    if Followed(Read(m, a)) then (m, ls, free, Target(Read(m, a)))
    else (m[a := free + TABLE_BITS], ls[free := path[..level + 1]], free + PAGE, free)
  }

  /** After the edit the descriptor at this level is a table descriptor for that table. */
  lemma InsertLinks(g: Geometry, m: Mem, ls: Labels, free: int, end: int, t: int, level: nat, path: seq<int>, v: nat)
    requires GeometryOk(g) && At(g, m, ls, free, end, t, level, path) && level + 1 < |path|
    ensures var (m1, ls1, free1, t1) := Next(m, ls, free, t, level, path);
            && At(g, m1, ls1, free1, end, t1, level + 1, path)
            && Insert(g, m1, free1, t1, level + 1, path, v) == Insert(g, m, free, t, level, path, v)
            && LinksTo(Read(Insert(g, m, free, t, level, path, v).0, t + 8 * path[level]), t1)
  {
    StepDown(g, m, ls, free, end, t, level, path);
    var (m1, ls1, free1, t1) := Next(m, ls, free, t, level, path);
    if !Followed(Read(m, t + 8 * path[level])) { TargetOfTable(free); }
    InsertUnchanged(g, m1, ls1, free1, end, t1, level + 1, path, v, t, path[level]);
  }

  ghost predicate LinksTo(d: nat, t: int) { Followed(d) && d % 4 == 3 && Target(d) == t }

  /** Hardware and editor both go down through such a descriptor. */
  lemma WalkDown(g: Geometry, m: Mem, t: int, level: nat, path: seq<int>, next: int)
    requires GeometryOk(g) && IsPath(g, path) && level + 1 < |path| && LinksTo(Read(m, t + 8 * path[level]), next)
    ensures Walk(g, m, t, level, path) == Walk(g, m, next, level + 1, path)
    ensures ReplacedAt(g, m, t, level, path) == ReplacedAt(g, m, next, level + 1, path)
  {
  }

  /** After the edit, a walk that agrees with the path at this level goes down to that table too. */
  lemma InsertDescends(g: Geometry, m: Mem, ls: Labels, free: int, end: int, t: int, level: nat, path: seq<int>,
      v: nat, other: seq<int>)
    requires GeometryOk(g) && At(g, m, ls, free, end, t, level, path) && level + 1 < |path|
    requires IsPath(g, other) && other[level] == path[level]
    ensures var (m1, ls1, free1, t1) := Next(m, ls, free, t, level, path);
            && At(g, m1, ls1, free1, end, t1, level + 1, path)
            && Insert(g, m1, free1, t1, level + 1, path, v) == Insert(g, m, free, t, level, path, v)
            && var m' := Insert(g, m, free, t, level, path, v).0;
               && Walk(g, m', t, level, other) == Walk(g, m', t1, level + 1, other)
               && ReplacedAt(g, m', t, level, other) == ReplacedAt(g, m', t1, level + 1, other)
  {
    InsertLinks(g, m, ls, free, end, t, level, path, v);
    var (m1, ls1, free1, t1) := Next(m, ls, free, t, level, path);
    WalkDown(g, Insert(g, m, free, t, level, path, v).0, t, level, other, t1);
  }

  /** The editor would find all tables of this path in place. */
  ghost predicate Mapped(g: Geometry, m: Mem, t: int, level: nat, path: seq<int>)
    requires GeometryOk(g) && IsPath(g, path) && level < |path|
  {
    ReplacedAt(g, m, t, level, path) == |path| - 1
  }

  /** The edited address walks to the new descriptor, through tables a later edit follows. */
  lemma {:induction false} InsertTranslates(g: Geometry, m: Mem, ls: Labels, free: int, end: int, t: int,
      level: nat, path: seq<int>, v: nat)
    requires GeometryOk(g) && At(g, m, ls, free, end, t, level, path) && v % 4 == 3
    ensures Walk(g, Insert(g, m, free, t, level, path, v).0, t, level, path) == Leaf(v)
    ensures Mapped(g, Insert(g, m, free, t, level, path, v).0, t, level, path)
    decreases |path| - level
  {
    if level + 1 < |path| {
      InsertDescends(g, m, ls, free, end, t, level, path, v, path);
      var (m1, ls1, free1, t1) := Next(m, ls, free, t, level, path);
      InsertTranslates(g, m1, ls1, free1, end, t1, level + 1, path, v);
    }
  }

  /** A walk that has left the edited path reads only unchanged cells. */
  lemma {:induction false} WalkUnchanged(g: Geometry, m: Mem, ls: Labels, free: int, end: int, t: int, level: nat,
      path: seq<int>, v: nat, s: int, l: nat, other: seq<int>)
    requires GeometryOk(g) && At(g, m, ls, free, end, t, level, path)
    requires IsPath(g, other) && l < |other| && s in ls && ls[s] == other[..l] && other[..l + 1] != path[..l + 1]
    ensures Walk(g, Insert(g, m, free, t, level, path, v).0, s, l, other) == Walk(g, m, s, l, other)
    ensures ReplacedAt(g, Insert(g, m, free, t, level, path, v).0, s, l, other) == ReplacedAt(g, m, s, l, other)
    decreases |other| - l
  {
    assert other[..l + 1] == other[..l] + [other[l]] && path[..l + 1] == path[..l] + [path[l]];
    InsertUnchanged(g, m, ls, free, end, t, level, path, v, s, other[l]);
    var d := Read(m, s + 8 * other[l]);
    if l + 1 < |other| {
      assert CellOk(m, ls, s, other[l]);
    }
    if l + 1 < |other| && d % 4 == 3 {
      assert other[..l + 2][..l + 1] == other[..l + 1] && path[..l + 2][..l + 1] == path[..l + 1];
      WalkUnchanged(g, m, ls, free, end, t, level, path, v, Target(d), l + 1, other);
    }
  }

  lemma SharedIndex(path: seq<int>, other: seq<int>, level: nat)
    requires |path| == |other| && level < |path| && other[..level] == path[..level]
    ensures other[..level + 1] == path[..level + 1] <==> other[level] == path[level]
  {
    assert other[..level + 1] == other[..level] + [other[level]] && path[..level + 1] == path[..level] + [path[level]];
  }

  /** Before the edit too, walks that share a followed descriptor go down together. */
  lemma FollowedDescends(g: Geometry, m: Mem, ls: Labels, free: int, end: int, t: int, level: nat, path: seq<int>,
      other: seq<int>)
    requires GeometryOk(g) && At(g, m, ls, free, end, t, level, path) && level + 1 < |path|
    requires IsPath(g, other) && other[level] == path[level]
    requires ReplacedAt(g, m, t, level, path) != level
    ensures var (m1, ls1, free1, t1) := Next(m, ls, free, t, level, path);
            && m1 == m && ls1 == ls && free1 == free
            && Walk(g, m, t, level, other) == Walk(g, m, t1, level + 1, other)
            && ReplacedAt(g, m, t, level, other) == ReplacedAt(g, m, t1, level + 1, other)
            && ReplacedAt(g, m, t, level, path) == ReplacedAt(g, m, t1, level + 1, path)
  {
    StepDown(g, m, ls, free, end, t, level, path);
  }

  /** Addresses that do not share the replaced descriptor translate as before. */
  lemma {:induction false} InsertKeepsOthers(g: Geometry, m: Mem, ls: Labels, free: int, end: int, t: int,
      level: nat, path: seq<int>, v: nat, other: seq<int>)
    requires GeometryOk(g) && At(g, m, ls, free, end, t, level, path)
    requires IsPath(g, other) && other[..level] == path[..level]
    requires var k := ReplacedAt(g, m, t, level, path); other[..k + 1] != path[..k + 1]
    ensures Walk(g, Insert(g, m, free, t, level, path, v).0, t, level, other) == Walk(g, m, t, level, other)
    ensures ReplacedAt(g, Insert(g, m, free, t, level, path, v).0, t, level, other) == ReplacedAt(g, m, t, level, other)
    decreases |path| - level
  {
    SharedIndex(path, other, level);
    if other[level] != path[level] {
      WalkUnchanged(g, m, ls, free, end, t, level, path, v, t, level, other);
    } else {
      InsertDescends(g, m, ls, free, end, t, level, path, v, other);
      FollowedDescends(g, m, ls, free, end, t, level, path, other);
      var (m1, ls1, free1, t1) := Next(m, ls, free, t, level, path);
      InsertKeepsOthers(g, m, ls, free, end, t1, level + 1, path, v, other);
    }
  }

  /** All descriptors of the table are zero. */
  ghost predicate Blank(g: Geometry, m: Mem, t: int, level: nat) {
    forall i :: 0 <= i < EntriesAt(g, level) ==> Read(m, t + 8 * i) == 0
  }

  lemma ZeroFaults(g: Geometry, m: Mem, t: int, level: nat, path: seq<int>)
    requires GeometryOk(g) && IsPath(g, path) && level < |path| && Read(m, t + 8 * path[level]) == 0
    ensures Walk(g, m, t, level, path) == Fault
  {
  }

  /** Below a fresh page only the edited address is mapped. */
  lemma {:induction false} FreshIsEmpty(g: Geometry, m: Mem, ls: Labels, free: int, end: int, t: int, level: nat,
      path: seq<int>, v: nat, other: seq<int>)
    requires GeometryOk(g) && At(g, m, ls, free, end, t, level, path)
    requires IsPath(g, other) && other[..level] == path[..level] && other != path
    requires Blank(g, m, t, level)
    ensures Walk(g, Insert(g, m, free, t, level, path, v).0, t, level, other) == Fault
    decreases |path| - level
  {
    SharedIndex(path, other, level);
    if other[level] != path[level] {
      InsertUnchanged(g, m, ls, free, end, t, level, path, v, t, other[level]);
      ZeroFaults(g, Insert(g, m, free, t, level, path, v).0, t, level, other);
    } else {
      LastIndexDiffers(path, other, level);
      InsertDescends(g, m, ls, free, end, t, level, path, v, other);
      FreshPage(g, m, ls, free, end, t, level, path);
      var (m1, ls1, free1, t1) := Next(m, ls, free, t, level, path);
      FreshIsEmpty(g, m1, ls1, free1, end, t1, level + 1, path, v, other);
    }
  }

  lemma LastIndexDiffers(path: seq<int>, other: seq<int>, level: nat)
    requires |path| == |other| && level < |path| && other[..level + 1] == path[..level + 1] && other != path
    ensures level + 1 < |path|
  {
    assert path == path[..level + 1] + path[level + 1..] && other == other[..level + 1] + other[level + 1..];
  }

  lemma FreshPage(g: Geometry, m: Mem, ls: Labels, free: int, end: int, t: int, level: nat, path: seq<int>)
    requires GeometryOk(g) && At(g, m, ls, free, end, t, level, path) && level + 1 < |path|
    ensures Blank(g, m[t + 8 * path[level] := free + TABLE_BITS], free, level + 1)
  {
    CellOutsidePool(g, m, ls, free, end, t, path[level]);
    assert LabelOk(g, path[..level + 1]);
    PageSize(g, path[..level + 1]);
    var m1 := m[t + 8 * path[level] := free + TABLE_BITS];
    forall i | 0 <= i < EntriesAt(g, level + 1) ensures Read(m1, free + 8 * i) == 0 {
      assert Read(m, free + 8 * i) == 0;
    }
  }

  /** The others that shared a replaced descriptor fault afterwards. */
  lemma {:induction false} InsertShadows(g: Geometry, m: Mem, ls: Labels, free: int, end: int, t: int, level: nat,
      path: seq<int>, v: nat, other: seq<int>)
    requires GeometryOk(g) && At(g, m, ls, free, end, t, level, path)
    requires IsPath(g, other) && other != path
    requires var k := ReplacedAt(g, m, t, level, path); other[..k + 1] == path[..k + 1]
    ensures Walk(g, Insert(g, m, free, t, level, path, v).0, t, level, other) == Fault
    decreases |path| - level
  {
    SharedPrefix(path, other, level, ReplacedAt(g, m, t, level, path));
    LastIndexDiffers(path, other, level);
    InsertDescends(g, m, ls, free, end, t, level, path, v, other);
    var (m1, ls1, free1, t1) := Next(m, ls, free, t, level, path);
    if ReplacedAt(g, m, t, level, path) != level {
      FollowedDescends(g, m, ls, free, end, t, level, path, other);
      InsertShadows(g, m1, ls1, free1, end, t1, level + 1, path, v, other);
    } else {
      FreshPage(g, m, ls, free, end, t, level, path);
      FreshIsEmpty(g, m1, ls1, free1, end, t1, level + 1, path, v, other);
    }
  }

  lemma SharedPrefix(path: seq<int>, other: seq<int>, level: nat, k: nat)
    requires |path| == |other| && level <= k < |path| && other[..k + 1] == path[..k + 1]
    ensures other[level] == path[level] && other[..level + 1] == path[..level + 1]
  {
    assert other[..k + 1][level] == other[level] && path[..k + 1][level] == path[level];
    assert other[..k + 1][..level + 1] == other[..level + 1] && path[..k + 1][..level + 1] == path[..level + 1];
  }

  /** What the tables translate after one edit, for every address: the edited one to
      its new descriptor, those that shared a replaced descriptor to a fault, all
      others as before. */
  lemma InsertIsMapUpdate(g: Geometry, m: Mem, ls: Labels, free: int, end: int, root: int, path: seq<int>, v: nat,
      other: seq<int>)
    requires GeometryOk(g) && At(g, m, ls, free, end, root, 0, path) && IsPath(g, other) && v % 4 == 3
    ensures var k := ReplacedAt(g, m, root, 0, path);
            Walk(g, Insert(g, m, free, root, 0, path, v).0, root, 0, other) ==
              if other == path then Leaf(v)
              else if other[..k + 1] == path[..k + 1] then Fault
              else Walk(g, m, root, 0, other)
  {
    var k := ReplacedAt(g, m, root, 0, path);
    if other == path {
      InsertTranslates(g, m, ls, free, end, root, 0, path, v);
    } else if other[..k + 1] == path[..k + 1] {
      InsertShadows(g, m, ls, free, end, root, 0, path, v, other);
    } else {
      InsertKeepsOthers(g, m, ls, free, end, root, 0, path, v, other);
    }
  }

  /** Two paths that share the first descriptor to be replaced share all above it. */
  lemma {:induction false} ReplacedTogether(g: Geometry, m: Mem, t: int, level: nat, path: seq<int>, other: seq<int>)
    requires GeometryOk(g) && IsPath(g, path) && IsPath(g, other) && level < |path|
    requires var k := ReplacedAt(g, m, t, level, path); other[..k + 1] == path[..k + 1]
    ensures ReplacedAt(g, m, t, level, other) == ReplacedAt(g, m, t, level, path)
    decreases |path| - level
  {
    SharedPrefix(path, other, level, ReplacedAt(g, m, t, level, path));
    if ReplacedAt(g, m, t, level, path) != level {
      ReplacedTogether(g, m, Target(Read(m, t + 8 * path[level])), level + 1, path, other);
    }
  }

  /** A mapped address keeps its translation, and stays mapped, under edits of other addresses. */
  lemma InsertKeepsMapped(g: Geometry, m: Mem, ls: Labels, free: int, end: int, root: int, path: seq<int>, v: nat,
      other: seq<int>)
    requires GeometryOk(g) && At(g, m, ls, free, end, root, 0, path) && IsPath(g, other) && other != path
    requires Mapped(g, m, root, 0, other)
    ensures var m' := Insert(g, m, free, root, 0, path, v).0;
            Mapped(g, m', root, 0, other) && Walk(g, m', root, 0, other) == Walk(g, m, root, 0, other)
  {
    var k := ReplacedAt(g, m, root, 0, path);
    assert other[..|other|] == other && path[..|path|] == path;
    assert other[..k + 1] != path[..k + 1] by {
      if other[..k + 1] == path[..k + 1] { ReplacedTogether(g, m, root, 0, path, other); }
    }
    InsertKeepsOthers(g, m, ls, free, end, root, 0, path, v, other);
  }
}
