/** The pool the stage-1 editor takes its table pages from, and when a page it takes is
    still mapped at the moment it is linked. */
module StagePool {
  import opened StageTables

  /** Whether a final descriptor grants the access the AT instruction checks. */
  type Access = nat -> bool

  /** The address space the tables describe: their geometry and top table, the path and the
      range of addresses, and the access check. */
  datatype Space = Space(g: Geometry, root: int, path: int -> seq<int>, limit: int, ok: Access)

  ghost predicate SpaceOk(sp: Space) {
    GeometryOk(sp.g) && forall p {:trigger sp.path(p)} :: IsPath(sp.g, sp.path(p))
  }

  /** at_s1e3w reports no fault for the page at p. */
  predicate PageMapped(sp: Space, m: Mem, p: int)
    requires SpaceOk(sp)
  {
    p < sp.limit && Granted(sp.ok, Walk(sp.g, m, sp.root, 0, sp.path(p)))
  }

  predicate Granted(ok: Access, o: Outcome) {
    match o
    case Leaf(d) => ok(d)
    case Block(_, d) => ok(d)
    case Fault => false
  }

  ghost predicate PoolPage(p: int, from: int, to: int) { from <= p < to && p % PAGE == 0 }

  /** Every page of the pool can be used as a table. */
  ghost predicate PoolMapped(sp: Space, m: Mem, free: int, end: int)
    requires SpaceOk(sp)
  {
    forall p :: PoolPage(p, free, end) ==> PageMapped(sp, m, p)
  }

  /** The page's path goes through the descriptor at level k of the edited path. */
  ghost predicate Shares(sp: Space, p: int, path: seq<int>, k: nat)
    requires SpaceOk(sp) && k < |path| == sp.g.levels
  {
    sp.path(p)[..k + 1] == path[..k + 1]
  }

  /** Every page the rest of the edit takes is mapped when it is linked. */
  ghost predicate Guarded(sp: Space, m: Mem, free: int, t: int, level: nat, path: seq<int>)
    requires SpaceOk(sp) && IsPath(sp.g, path) && level < |path| && free >= 0
    decreases |path| - level
  {
    level == |path| - 1 ||
    (var a := t + 8 * path[level];
     if Followed(Read(m, a)) then Guarded(sp, m, free, Target(Read(m, a)), level + 1, path)
     else
       var m1 := m[a := free + TABLE_BITS];
       PageMapped(sp, m1, free) && Guarded(sp, m1, free + PAGE, free, level + 1, path))
  }

  lemma GuardedStep(sp: Space, m: Mem, free: int, t: int, level: nat, path: seq<int>, a: int)
    requires SpaceOk(sp) && IsPath(sp.g, path) && level + 1 < |path| && free >= 0 && a == t + 8 * path[level]
    ensures Guarded(sp, m, free, t, level, path) <==>
            if Followed(Read(m, a)) then Guarded(sp, m, free, Target(Read(m, a)), level + 1, path)
            else var m1 := m[a := free + TABLE_BITS];
                 PageMapped(sp, m1, free) && Guarded(sp, m1, free + PAGE, free, level + 1, path)
  {
  }

  /** The first indices of the path lead from table s to table t. */
  ghost predicate Leads(g: Geometry, m: Mem, s: int, l: nat, t: int, level: nat, path: seq<int>)
    requires GeometryOk(g) && IsPath(g, path) && l <= level < |path|
    decreases level - l
  {
    if l == level then s == t
    else
      var d := Read(m, s + 8 * path[l]);
      LinksTo(d, Target(d)) && Leads(g, m, Target(d), l + 1, t, level, path)
  }

  lemma {:induction false} LeadsWalk(g: Geometry, m: Mem, s: int, l: nat, t: int, level: nat, path: seq<int>,
      q: seq<int>)
    requires GeometryOk(g) && IsPath(g, path) && IsPath(g, q) && l <= level < |path|
    requires Leads(g, m, s, l, t, level, path) && q[..level] == path[..level]
    ensures Walk(g, m, s, l, q) == Walk(g, m, t, level, q)
    decreases level - l
  {
    if l < level {
      assert q[..level][l] == q[l] && path[..level][l] == path[l];
      var next := Target(Read(m, s + 8 * path[l]));
      WalkDown(g, m, s, l, q, next);
      LeadsWalk(g, m, next, l + 1, t, level, path, q);
    }
  }

  lemma {:induction false} LeadsExtend(g: Geometry, m: Mem, s: int, l: nat, t: int, level: nat, path: seq<int>,
      next: int)
    requires GeometryOk(g) && IsPath(g, path) && l <= level && level + 1 < |path|
    requires Leads(g, m, s, l, t, level, path) && LinksTo(Read(m, t + 8 * path[level]), next)
    ensures Leads(g, m, s, l, next, level + 1, path)
    decreases level - l
  {
    if l < level { LeadsExtend(g, m, Target(Read(m, s + 8 * path[l])), l + 1, t, level, path, next); }
  }

  /** Writing a cell of the table it leads to leaves the way there as it was. */
  lemma {:induction false} LeadsFrame(g: Geometry, m: Mem, ls: Labels, free: int, end: int, s: int, l: nat,
                                      t: int, level: nat, path: seq<int>, v: nat)
    requires GeometryOk(g) && At(g, m, ls, free, end, t, level, path) && l <= level
    requires s in ls && ls[s] == path[..l] && Leads(g, m, s, l, t, level, path)
    ensures Leads(g, m[t + 8 * path[level] := v], s, l, t, level, path)
    decreases level - l
  {
    if l < level {
      UpperCell(g, m, ls, free, end, s, l, t, level, path, v);
      LeadsFrame(g, m, ls, free, end, Target(Read(m, s + 8 * path[l])), l + 1, t, level, path, v);
    }
  }

  /** A cell of the path above table t is not the cell written, and leads to the next label. */
  lemma UpperCell(g: Geometry, m: Mem, ls: Labels, free: int, end: int, s: int, l: nat, t: int, level: nat,
                  path: seq<int>, v: nat)
    requires GeometryOk(g) && At(g, m, ls, free, end, t, level, path) && l < level
    requires s in ls && ls[s] == path[..l]
    ensures var d := Read(m, s + 8 * path[l]);
            && Read(m[t + 8 * path[level] := v], s + 8 * path[l]) == d
            && (d % 4 == 3 ==> Target(d) in ls && ls[Target(d)] == path[..l + 1])
  {
    assert |ls[s]| == l && |ls[t]| == level;
    assert Apart(g, ls, s, t);
    CellsDiffer(g, ls, s, path[l], t, path[level]);
    assert CellOk(m, ls, s, path[l]);
    assert path[..l] + [path[l]] == path[..l + 1];
  }

  /** Linking a fresh page changes no walk that does not go through the linked descriptor. */
  lemma {:induction false} LinkKeepsWalk(g: Geometry, m: Mem, ls: Labels, free: int, end: int, t: int, level: nat,
                                         path: seq<int>, v: nat, s: int, l: nat, q: seq<int>)
    requires GeometryOk(g) && At(g, m, ls, free, end, t, level, path)
    requires IsPath(g, q) && l < |q| && s in ls && ls[s] == q[..l] && q[..level + 1] != path[..level + 1]
    ensures Walk(g, m[t + 8 * path[level] := v], s, l, q) == Walk(g, m, s, l, q)
    decreases |q| - l
  {
    OffCell(g, m, ls, free, end, t, level, path, s, l, q);
    var d := Read(m, s + 8 * q[l]);
    if l + 1 < |q| && d % 4 == 3 {
      assert CellOk(m, ls, s, q[l]);
      assert q[..l] + [q[l]] == q[..l + 1];
      LinkKeepsWalk(g, m, ls, free, end, t, level, path, v, Target(d), l + 1, q);
    }
  }

  lemma OffCell(g: Geometry, m: Mem, ls: Labels, free: int, end: int, t: int, level: nat, path: seq<int>,
                s: int, l: nat, q: seq<int>)
    requires GeometryOk(g) && At(g, m, ls, free, end, t, level, path)
    requires IsPath(g, q) && l < |q| && s in ls && ls[s] == q[..l] && q[..level + 1] != path[..level + 1]
    ensures s + 8 * q[l] != t + 8 * path[level]
  {
    assert s != t ==> Apart(g, ls, s, t);
    CellsDiffer(g, ls, s, q[l], t, path[level]);
    if s == t && q[l] == path[level] {
      assert |q[..l]| == l && |path[..level]| == level;
      SharedIndex(path, q, level);
    }
  }

  /** After linking a fresh page the path leads there. */
  lemma LinkLeads(g: Geometry, m: Mem, ls: Labels, free: int, end: int, root: int, t: int, level: nat, path: seq<int>)
    requires GeometryOk(g) && At(g, m, ls, free, end, t, level, path) && level + 1 < |path|
    requires root in ls && ls[root] == [] && Leads(g, m, root, 0, t, level, path)
    requires !Followed(Read(m, t + 8 * path[level]))
    ensures Leads(g, m[t + 8 * path[level] := free + TABLE_BITS], root, 0, free, level + 1, path)
  {
    var a := t + 8 * path[level];
    FreeInRange(g, m, ls, free, end, t, level, path);
    LinkedCell(m, a, free, end);
    FromRoot(g, m, ls, free, end, root, t, level, path, free + TABLE_BITS);
    LeadsExtend(g, m[a := free + TABLE_BITS], root, 0, t, level, path, free);
  }

  lemma FreeInRange(g: Geometry, m: Mem, ls: Labels, free: int, end: int, t: int, level: nat, path: seq<int>)
    requires GeometryOk(g) && At(g, m, ls, free, end, t, level, path) && level + 1 < |path|
    ensures 0 <= free < end <= ADDRESS_LIMIT && free % PAGE == 0
  {
  }

  lemma FromRoot(g: Geometry, m: Mem, ls: Labels, free: int, end: int, root: int, t: int, level: nat,
                 path: seq<int>, v: nat)
    requires GeometryOk(g) && At(g, m, ls, free, end, t, level, path)
    requires root in ls && ls[root] == [] && Leads(g, m, root, 0, t, level, path)
    ensures Leads(g, m[t + 8 * path[level] := v], root, 0, t, level, path)
  {
    assert path[..0] == [];
    LeadsFrame(g, m, ls, free, end, root, 0, t, level, path, v);
  }

  lemma LinkedCell(m: Mem, a: int, free: int, end: int)
    requires 0 <= free < end <= ADDRESS_LIMIT && free % PAGE == 0
    ensures LinksTo(Read(m[a := free + TABLE_BITS], a), free)
  {
    TargetOfTable(free);
  }

  /** Following a descriptor, the path leads one table further. */
  lemma FollowLeads(g: Geometry, m: Mem, ls: Labels, free: int, end: int, root: int, t: int, level: nat, path: seq<int>)
    requires GeometryOk(g) && At(g, m, ls, free, end, t, level, path) && level + 1 < |path|
    requires Leads(g, m, root, 0, t, level, path) && Followed(Read(m, t + 8 * path[level]))
    ensures var next := Target(Read(m, t + 8 * path[level]));
            At(g, m, ls, free, end, next, level + 1, path) && Leads(g, m, root, 0, next, level + 1, path)
  {
    StepDown(g, m, ls, free, end, t, level, path);
    LeadsExtend(g, m, root, 0, t, level, path, Target(Read(m, t + 8 * path[level])));
  }

  /** Every walk through the linked descriptor then faults. */
  lemma LinkCutsOff(g: Geometry, m: Mem, ls: Labels, free: int, end: int, root: int, t: int, level: nat,
                    path: seq<int>, q: seq<int>)
    requires GeometryOk(g) && At(g, m, ls, free, end, t, level, path) && level + 1 < |path|
    requires root in ls && ls[root] == [] && Leads(g, m, root, 0, t, level, path)
    requires !Followed(Read(m, t + 8 * path[level]))
    requires IsPath(g, q) && q[..level + 1] == path[..level + 1]
    ensures Walk(g, m[t + 8 * path[level] := free + TABLE_BITS], root, 0, q) == Fault
  {
    var m1 := m[t + 8 * path[level] := free + TABLE_BITS];
    LinkLeads(g, m, ls, free, end, root, t, level, path);
    LeadsWalk(g, m1, root, 0, free, level + 1, path, q);
    FreshPage(g, m, ls, free, end, t, level, path);
    ZeroFaults(g, m1, free, level + 1, q);
  }

  /** What holds between the first replaced descriptor, at level k, and the end of the edit:
      exactly the pages behind it have lost the mapping they had in memory m0. */
  ghost predicate Cut(sp: Space, m0: Mem, m: Mem, path: seq<int>, k: nat)
    requires SpaceOk(sp) && k < |path| == sp.g.levels
  {
    forall p :: CutAt(sp, m0, m, p, path, k)
  }

  ghost predicate CutAt(sp: Space, m0: Mem, m: Mem, p: int, path: seq<int>, k: nat)
    requires SpaceOk(sp) && k < |path| == sp.g.levels
  {
    PageMapped(sp, m, p) <==> PageMapped(sp, m0, p) && !Shares(sp, p, path, k)
  }

  /** Linking a fresh page at `level` unmaps exactly the pages whose path goes through there. */
  lemma LinkUnmaps(sp: Space, m: Mem, ls: Labels, free: int, end: int, t: int, level: nat,
                   path: seq<int>, p: int)
    requires SpaceOk(sp) && At(sp.g, m, ls, free, end, t, level, path) && level + 1 < |path|
    requires sp.root in ls && ls[sp.root] == [] && Leads(sp.g, m, sp.root, 0, t, level, path)
    requires !Followed(Read(m, t + 8 * path[level]))
    ensures PageMapped(sp, m[t + 8 * path[level] := free + TABLE_BITS], p) <==>
            PageMapped(sp, m, p) && !Shares(sp, p, path, level)
  {
    var g, q := sp.g, sp.path(p);
    if Shares(sp, p, path, level) {
      LinkCutsOff(g, m, ls, free, end, sp.root, t, level, path, q);
    } else {
      assert q[..0] == [];
      LinkKeepsWalk(g, m, ls, free, end, t, level, path, free + TABLE_BITS, sp.root, 0, q);
    }
  }

  lemma SharesLess(sp: Space, p: int, path: seq<int>, k: nat, level: nat)
    requires SpaceOk(sp) && k <= level < |path| == sp.g.levels && Shares(sp, p, path, level)
    ensures Shares(sp, p, path, k)
  {
    SharedPrefix(path, sp.path(p), k, level);
  }

  /** Every page of the range was mapped in m0 and does not lie behind the descriptor at level k. */
  ghost predicate Usable(sp: Space, m0: Mem, path: seq<int>, k: nat, from: int, to: int)
    requires SpaceOk(sp) && k < |path| == sp.g.levels
  {
    forall p :: PoolPage(p, from, to) ==> UsablePage(sp, m0, path, k, p)
  }

  ghost predicate UsablePage(sp: Space, m0: Mem, path: seq<int>, k: nat, p: int)
    requires SpaceOk(sp) && k < |path| == sp.g.levels
  {
    PageMapped(sp, m0, p) && !Shares(sp, p, path, k)
  }

  lemma UsableSplit(sp: Space, m0: Mem, path: seq<int>, k: nat, from: int, to: int)
    requires SpaceOk(sp) && k < |path| == sp.g.levels && from % PAGE == 0 && from < to
    ensures Usable(sp, m0, path, k, from, to) <==>
            UsablePage(sp, m0, path, k, from) && Usable(sp, m0, path, k, from + PAGE, to)
  {
    assert PoolPage(from, from, to);
    forall p {:trigger PoolPage(p, from, to)} | PoolPage(p, from, to)
      ensures p == from || PoolPage(p, from + PAGE, to)
    {
      if p > from { NextPage(from, p); }
    }
    forall p {:trigger PoolPage(p, from + PAGE, to)} | PoolPage(p, from + PAGE, to) ensures PoolPage(p, from, to) {
    }
  }

  lemma NextPage(a: int, b: int)
    requires a % PAGE == 0 && b % PAGE == 0 && a < b
    ensures a + PAGE <= b
  {
  }

  /** The state after linking a fresh page for the edit at table t. */
  lemma AfterLink(sp: Space, m: Mem, ls: Labels, free: int, end: int, t: int, level: nat, path: seq<int>)
    requires SpaceOk(sp) && At(sp.g, m, ls, free, end, t, level, path) && level + 1 < |path|
    requires sp.root in ls && ls[sp.root] == [] && Leads(sp.g, m, sp.root, 0, t, level, path)
    requires !Followed(Read(m, t + 8 * path[level]))
    ensures var g, m1, ls1 := sp.g, m[t + 8 * path[level] := free + TABLE_BITS], ls[free := path[..level + 1]];
            && At(g, m1, ls1, free + PAGE, end, free, level + 1, path) && sp.root in ls1 && ls1[sp.root] == []
            && Leads(g, m1, sp.root, 0, free, level + 1, path) && Blank(g, m1, free, level + 1)
            && free >= 0 && free % PAGE == 0 && PoolPage(free, free, end)
  {
    var g := sp.g;
    StepDown(g, m, ls, free, end, t, level, path);
    LinkLeads(g, m, ls, free, end, sp.root, t, level, path);
    FreshPage(g, m, ls, free, end, t, level, path);
  }

  /** Below the first replaced descriptor the guard holds exactly when every page still to be
      taken was mapped before the edit and does not lie behind that descriptor. */
  lemma {:induction false} GuardedBelow(sp: Space, m0: Mem, m: Mem, ls: Labels, free: int, end: int,
                                        t: int, level: nat, path: seq<int>, k: nat)
    requires SpaceOk(sp) && At(sp.g, m, ls, free, end, t, level, path) && k < level
    requires sp.root in ls && ls[sp.root] == [] && Leads(sp.g, m, sp.root, 0, t, level, path)
    requires Blank(sp.g, m, t, level) && Cut(sp, m0, m, path, k)
    ensures Guarded(sp, m, free, t, level, path) <==>
            Usable(sp, m0, path, k, free, free + PAGE * (|path| - 1 - level))
    decreases |path| - level, 0
  {
    if level < |path| - 1 {
      var m1, ls1 := m[t + 8 * path[level] := free + TABLE_BITS], ls[free := path[..level + 1]];
      AfterLink(sp, m, ls, free, end, t, level, path);
      forall p ensures CutAt(sp, m0, m1, p, path, k) {
        assert CutAt(sp, m0, m, p, path, k);
        LinkUnmaps(sp, m, ls, free, end, t, level, path, p);
        if Shares(sp, p, path, level) { SharesLess(sp, p, path, k, level); }
      }
      GuardedRest(sp, m0, m, m1, ls1, free, end, t, level, path, k);
    }
  }

  /** The link at `level`, then the rest of the edit. */
  lemma {:induction false} GuardedRest(sp: Space, m0: Mem, m: Mem, m1: Mem, ls1: Labels, free: int, end: int,
                                       t: int, level: nat, path: seq<int>, k: nat)
    requires SpaceOk(sp) && IsPath(sp.g, path) && k <= level && level + 1 < |path|
    requires free >= 0 && free % PAGE == 0
    requires !Followed(Read(m, t + 8 * path[level])) && m1 == m[t + 8 * path[level] := free + TABLE_BITS]
    requires At(sp.g, m1, ls1, free + PAGE, end, free, level + 1, path) && sp.root in ls1 && ls1[sp.root] == []
    requires Leads(sp.g, m1, sp.root, 0, free, level + 1, path) && Blank(sp.g, m1, free, level + 1)
    requires Cut(sp, m0, m1, path, k)
    ensures Guarded(sp, m, free, t, level, path) <==>
            Usable(sp, m0, path, k, free, free + PAGE * (|path| - 1 - level))
    decreases |path| - level - 1, 1
  {
    assert CutAt(sp, m0, m1, free, path, k);
    GuardedStep(sp, m, free, t, level, path, t + 8 * path[level]);
    GuardedBelow(sp, m0, m1, ls1, free + PAGE, end, free, level + 1, path, k);
    UsableSplit(sp, m0, path, k, free, free + PAGE * (|path| - 1 - level));
  }

  /** Exact condition for the code not to call itself: every page the edit takes was mapped
      before the edit, and none lies behind the first descriptor the edit replaces. */
  lemma {:induction false} GuardedIff(sp: Space, m: Mem, ls: Labels, free: int, end: int,
                                      t: int, level: nat, path: seq<int>)
    requires SpaceOk(sp) && At(sp.g, m, ls, free, end, t, level, path)
    requires sp.root in ls && ls[sp.root] == [] && Leads(sp.g, m, sp.root, 0, t, level, path)
    ensures var k := ReplacedAt(sp.g, m, t, level, path);
            Guarded(sp, m, free, t, level, path) <==>
            Usable(sp, m, path, k, free, free + PAGE * (|path| - 1 - k))
    decreases |path| - level
  {
    var a := t + 8 * path[level];
    if level == |path| - 1 {
      NothingTaken(sp, m, free, t, path);
    } else if Followed(Read(m, a)) {
      var next := Target(Read(m, a));
      FollowLeads(sp.g, m, ls, free, end, sp.root, t, level, path);
      FollowedSame(sp, m, free, t, level, path, a);
      GuardedIff(sp, m, ls, free, end, next, level + 1, path);
    } else {
      GuardedLink(sp, m, ls, free, end, t, level, path);
      assert ReplacedAt(sp.g, m, t, level, path) == level;
    }
  }

  lemma NothingTaken(sp: Space, m: Mem, free: int, t: int, path: seq<int>)
    requires SpaceOk(sp) && IsPath(sp.g, path) && free >= 0
    ensures var last := |path| - 1;
            && ReplacedAt(sp.g, m, t, last, path) == last && Guarded(sp, m, free, t, last, path)
            && Usable(sp, m, path, last, free, free + PAGE * (|path| - 1 - last))
  {
  }

  lemma FollowedSame(sp: Space, m: Mem, free: int, t: int, level: nat, path: seq<int>, a: int)
    requires SpaceOk(sp) && IsPath(sp.g, path) && level + 1 < |path| && free >= 0
    requires a == t + 8 * path[level] && Followed(Read(m, a))
    ensures Guarded(sp, m, free, t, level, path) == Guarded(sp, m, free, Target(Read(m, a)), level + 1, path)
    ensures ReplacedAt(sp.g, m, t, level, path) == ReplacedAt(sp.g, m, Target(Read(m, a)), level + 1, path)
  {
    GuardedStep(sp, m, free, t, level, path, a);
  }

  lemma GuardedLink(sp: Space, m: Mem, ls: Labels, free: int, end: int, t: int, level: nat, path: seq<int>)
    requires SpaceOk(sp) && At(sp.g, m, ls, free, end, t, level, path) && level + 1 < |path|
    requires sp.root in ls && ls[sp.root] == [] && Leads(sp.g, m, sp.root, 0, t, level, path)
    requires !Followed(Read(m, t + 8 * path[level]))
    ensures Guarded(sp, m, free, t, level, path) <==>
            Usable(sp, m, path, level, free, free + PAGE * (|path| - 1 - level))
  {
    var m1, ls1 := m[t + 8 * path[level] := free + TABLE_BITS], ls[free := path[..level + 1]];
    AfterLink(sp, m, ls, free, end, t, level, path);
    forall p ensures CutAt(sp, m, m1, p, path, level) {
      LinkUnmaps(sp, m, ls, free, end, t, level, path, p);
    }
    GuardedRest(sp, m, m, m1, ls1, free, end, t, level, path, level);
  }

  /** The number of pages an edit takes: one for each level below the first replaced descriptor. */
  lemma {:induction false} PagesTaken(g: Geometry, m: Mem, ls: Labels, free: int, end: int, t: int, level: nat,
      path: seq<int>, v: nat)
    requires GeometryOk(g) && At(g, m, ls, free, end, t, level, path)
    ensures Insert(g, m, free, t, level, path, v).1 == free + PAGE * (|path| - 1 - ReplacedAt(g, m, t, level, path))
    decreases |path| - level
  {
    if level < |path| - 1 {
      StepDown(g, m, ls, free, end, t, level, path);
      var (m1, ls1, free1, t1) := Next(m, ls, free, t, level, path);
      PagesTaken(g, m1, ls1, free1, end, t1, level + 1, path, v);
      if !Followed(Read(m, t + 8 * path[level])) {
        FreshPage(g, m, ls, free, end, t, level, path);
        assert Read(m1, free + 8 * path[level + 1]) == 0;
      }
    }
  }

  /** Pool pages behind the replaced descriptor, if any, are the edited page itself. */
  ghost predicate Undisturbed(sp: Space, path: seq<int>, k: nat, from: int, to: int, v: nat)
    requires SpaceOk(sp) && k < |path| == sp.g.levels
  {
    forall p :: PoolPage(p, from, to) && Shares(sp, p, path, k) ==> sp.path(p) == path && sp.ok(v)
  }

  /** An edit keeps the rest of the pool mapped exactly when it replaces no descriptor another
      page of it needs, and maps a pool page, if at all, so that the access is granted. */
  lemma PoolKept(sp: Space, m: Mem, ls: Labels, free: int, end: int, path: seq<int>, v: nat)
    requires SpaceOk(sp) && At(sp.g, m, ls, free, end, sp.root, 0, path) && v % 4 == 3
    requires PoolMapped(sp, m, free, end)
    ensures var g := sp.g;
            var k := ReplacedAt(g, m, sp.root, 0, path);
            var from := free + PAGE * (|path| - 1 - k);
            PoolMapped(sp, Insert(g, m, free, sp.root, 0, path, v).0, from, end) <==>
            Undisturbed(sp, path, k, from, end, v)
  {
    var g := sp.g;
    var k := ReplacedAt(g, m, sp.root, 0, path);
    var m' := Insert(g, m, free, sp.root, 0, path, v).0;
    var from := free + PAGE * (|path| - 1 - k);
    forall p | PoolPage(p, from, end)
      ensures PageMapped(sp, m', p) <==> (Shares(sp, p, path, k) ==> sp.path(p) == path && sp.ok(v))
    {
      PageKept(sp, m, ls, free, end, path, v, p);
    }
  }

  lemma PageKept(sp: Space, m: Mem, ls: Labels, free: int, end: int, path: seq<int>, v: nat, p: int)
    requires SpaceOk(sp) && At(sp.g, m, ls, free, end, sp.root, 0, path) && v % 4 == 3
    requires PageMapped(sp, m, p)
    ensures var g := sp.g;
            var k := ReplacedAt(g, m, sp.root, 0, path);
            PageMapped(sp, Insert(g, m, free, sp.root, 0, path, v).0, p) <==>
            (Shares(sp, p, path, k) ==> sp.path(p) == path && sp.ok(v))
  {
    InsertIsMapUpdate(sp.g, m, ls, free, end, sp.root, path, v, sp.path(p));
  }
}
