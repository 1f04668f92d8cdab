/** PCIe bus trees: their depth-first numbering, and how programmed bridge
    windows route a configuration access to a bus. */
module Topology {

  /** Positions of a bus: MAX_DEV * MAX_FUNC. */
  const SLOTS: nat := 256

  /** What sits at one (device, function) position of a bus. */
  datatype Function =
    | Absent
    | HostBridge
    | Endpoint
    | OtherHeader
    | Bridge(below: Bus)

  /** A bus: one position per device and function, at index 8 * dev + func. */
  datatype Bus = Bus(fns: seq<Function>)

  /** A bus is named by the positions of the bridges that lead to it from the
      root bus; a function by the path of its bus followed by its position. */
  type Path = seq<int>

  ghost predicate WellFormed(bus: Bus)
    decreases bus
  {
    && |bus.fns| == SLOTS
    && forall i :: 0 <= i < SLOTS && bus.fns[i].Bridge? ==> WellFormed(bus.fns[i].below)
  }

  /** The path leads from `bus` through bridges only. */
  predicate IsBusPath(bus: Bus, path: Path)
    decreases path
  {
    path == [] ||
    (0 <= path[0] < |bus.fns| && bus.fns[path[0]].Bridge? && IsBusPath(bus.fns[path[0]].below, path[1..]))
  }

  function BusAt(bus: Bus, path: Path): Bus
    requires IsBusPath(bus, path)
    decreases path
  {
    if path == [] then bus else BusAt(bus.fns[path[0]].below, path[1..])
  }

  // ----- depth-first numbering -----

  /** Number of bridges at or below the first `i` positions of the bus. */
  ghost function BridgesUpTo(bus: Bus, i: nat): nat
    requires i <= |bus.fns|
    decreases bus, i
  {
    if i == 0 then 0
    else BridgesUpTo(bus, i - 1) +
         if bus.fns[i - 1].Bridge? then 1 + Bridges(bus.fns[i - 1].below) else 0
  }

  ghost function Bridges(bus: Bus): nat
    decreases bus, |bus.fns| + 1
  {
    BridgesUpTo(bus, |bus.fns|)
  }

  /** Preorder number of the bus at `path`, when the bus it starts from has number `b`. */
  ghost function Number(bus: Bus, b: nat, path: Path): nat
    requires IsBusPath(bus, path)
    decreases path
  {
    if path == [] then b
    else Number(bus.fns[path[0]].below, b + 1 + BridgesUpTo(bus, path[0]), path[1..])
  }

  lemma {:induction false} BridgesMonotone(bus: Bus, i: nat, j: nat)
    requires i <= j <= |bus.fns|
    ensures BridgesUpTo(bus, i) <= BridgesUpTo(bus, j)
    decreases j - i
  {
    if i < j { BridgesMonotone(bus, i, j - 1); }
  }

  /** The subtree behind position i of bus b occupies exactly the numbers
      b + 1 + BridgesUpTo(i) .. b + BridgesUpTo(i + 1). */
  lemma {:induction false} NumberRange(bus: Bus, b: nat, path: Path)
    requires IsBusPath(bus, path)
    ensures b <= Number(bus, b, path)
    ensures Number(bus, b, path) + Bridges(BusAt(bus, path)) <= b + Bridges(bus)
    ensures path != [] ==> b + 1 + BridgesUpTo(bus, path[0]) <= Number(bus, b, path)
    ensures path != [] ==> Number(bus, b, path) + Bridges(BusAt(bus, path)) <= b + BridgesUpTo(bus, path[0] + 1)
    decreases path
  {
    if path != [] {
      NumberRange(bus.fns[path[0]].below, b + 1 + BridgesUpTo(bus, path[0]), path[1..]);
      BridgesMonotone(bus, path[0] + 1, |bus.fns|);
    }
  }

  /** Depth-first preorder: a bus comes before the buses below it, and those behind an earlier
      position before those behind a later one. */
  ghost predicate ComesBefore(p: Path, q: Path)
    decreases p
  {
    q != [] && (p == [] || p[0] < q[0] || (p[0] == q[0] && ComesBefore(p[1..], q[1..])))
  }

  lemma {:induction false} NumberIsPreorder(bus: Bus, b: nat, p: Path, q: Path)
    requires IsBusPath(bus, p) && IsBusPath(bus, q) && ComesBefore(p, q)
    ensures Number(bus, b, p) < Number(bus, b, q)
    decreases p
  {
    NumberRange(bus, b, q);
    if p != [] && p[0] == q[0] {
      NumberIsPreorder(bus.fns[p[0]].below, b + 1 + BridgesUpTo(bus, p[0]), p[1..], q[1..]);
    } else if p != [] {
      NumberRange(bus, b, p);
      BridgesMonotone(bus, p[0] + 1, q[0]);
    }
  }

  /** Every number of the range is taken. */
  lemma {:induction false} NumberOnto(bus: Bus, b: nat, x: nat) returns (p: Path)
    requires b <= x <= b + Bridges(bus)
    ensures IsBusPath(bus, p) && Number(bus, b, p) == x
    decreases bus
  {
    if x == b {
      p := [];
    } else {
      var k := PositionOf(bus, b, x, |bus.fns|);
      var rest := NumberOnto(bus.fns[k].below, b + 1 + BridgesUpTo(bus, k), x);
      p := [k] + rest;
      assert p[1..] == rest;
    }
  }

  lemma {:induction false} PositionOf(bus: Bus, b: nat, x: nat, i: nat) returns (k: nat)
    requires i <= |bus.fns| && b < x <= b + BridgesUpTo(bus, i)
    ensures k < i && bus.fns[k].Bridge?
    ensures b + BridgesUpTo(bus, k) < x <= b + 1 + BridgesUpTo(bus, k) + Bridges(bus.fns[k].below)
  {
    if b + BridgesUpTo(bus, i - 1) < x {
      k := i - 1;
    } else {
      k := PositionOf(bus, b, x, i - 1);
    }
  }

  // ----- bridge registers and routing -----

  /** Primary, secondary and subordinate bus number of a bridge. */
  datatype Window = Window(pri: nat, sec: nat, sub: nat)

  /** The bus-number registers; a bridge that was never programmed reads as zero. */
  type Registers = map<Path, Window>

  function Win(regs: Registers, p: Path): Window {
    if p in regs then regs[p] else Window(0, 0, 0)
  }

  /** Buses that receive an access to bus number `b` that travels on the bus at
      `path`, through the bridges at its first `i` positions.  A bridge turns the
      access into one on its own secondary bus when the number is its secondary
      number, and passes it on when the number is further inside its window. */
  function DeliveredUpTo(bus: Bus, path: Path, regs: Registers, b: nat, i: nat): seq<Path>
    requires i <= |bus.fns|
    decreases bus, i
  {
    if i == 0 then []
    else
      DeliveredUpTo(bus, path, regs, b, i - 1) +
      if bus.fns[i - 1].Bridge? then DeliveredVia(bus.fns[i - 1].below, path + [i - 1], regs, b) else []
  }

  function Delivered(bus: Bus, path: Path, regs: Registers, b: nat): seq<Path>
    decreases bus, |bus.fns| + 1
  {
    DeliveredUpTo(bus, path, regs, b, |bus.fns|)
  }

  /** The same for the bridge at `path`, whose secondary bus is `below`. */
  function DeliveredVia(below: Bus, path: Path, regs: Registers, b: nat): seq<Path>
    decreases below, |below.fns| + 2
  {
    var w := Win(regs, path);
    if w.sec == b then [path]
    else if w.sec < b <= w.sub then Delivered(below, path, regs, b)
    else []
  }

  /** The host bridge serves its own root bus and sends everything else down. */
  function Route(root: Bus, rootBus: nat, regs: Registers, b: nat): seq<Path> {
    if b == rootBus then [[]] else Delivered(root, [], regs, b)
  }

  // ----- facts about routing -----

  ghost predicate Silent(bus: Bus, path: Path, regs: Registers, b: nat, i: nat)
    requires i < |bus.fns|
  {
    bus.fns[i].Bridge? ==> DeliveredVia(bus.fns[i].below, path + [i], regs, b) == []
  }

  lemma {:induction false} NoneDelivered(bus: Bus, path: Path, regs: Registers, b: nat, i: nat)
    requires i <= |bus.fns|
    requires forall j :: 0 <= j < i ==> Silent(bus, path, regs, b, j)
    ensures DeliveredUpTo(bus, path, regs, b, i) == []
  {
    if i > 0 {
      NoneDelivered(bus, path, regs, b, i - 1);
      assert Silent(bus, path, regs, b, i - 1);
    }
  }

  /** When only the bridge at position k answers, the bus delivers what it delivers. */
  lemma {:induction false} OneDelivered(bus: Bus, path: Path, regs: Registers, b: nat, k: nat, i: nat)
    requires k < i <= |bus.fns| && bus.fns[k].Bridge?
    requires forall j :: 0 <= j < i && j != k ==> Silent(bus, path, regs, b, j)
    ensures DeliveredUpTo(bus, path, regs, b, i) == DeliveredVia(bus.fns[k].below, path + [k], regs, b)
  {
    if i == k + 1 {
      NoneDelivered(bus, path, regs, b, k);
    } else {
      OneDelivered(bus, path, regs, b, k, i - 1);
      assert Silent(bus, path, regs, b, i - 1);
    }
  }

  // ----- the state enumeration leaves behind -----

  /** The bridges at and below the first `i` positions hold their final windows. */
  ghost predicate ProgrammedUpTo(bus: Bus, b: nat, path: Path, regs: Registers, i: nat)
    requires i <= |bus.fns|
    decreases bus, i
  {
    i == 0 ||
    (ProgrammedUpTo(bus, b, path, regs, i - 1) &&
     (bus.fns[i - 1].Bridge? ==>
        ProgrammedBridge(bus.fns[i - 1].below, b, b + 1 + BridgesUpTo(bus, i - 1), path + [i - 1], regs)))
  }

  /** Bridge at `path`, on bus `b`, with secondary number `s`: its window is
      [s, s + bridges below], and so on inside. */
  ghost predicate ProgrammedBridge(below: Bus, b: nat, s: nat, path: Path, regs: Registers)
    decreases below, |below.fns| + 2
  {
    && Win(regs, path) == Window(b, s, s + Bridges(below))
    && Programmed(below, s, path, regs)
  }

  ghost predicate Programmed(bus: Bus, b: nat, path: Path, regs: Registers)
    decreases bus, |bus.fns| + 1
  {
    ProgrammedUpTo(bus, b, path, regs, |bus.fns|)
  }

  lemma {:induction false} ProgrammedFrame(bus: Bus, b: nat, path: Path, r: Registers, r': Registers, i: nat)
    requires i <= |bus.fns|
    requires forall q: Path :: path < q && q[|path|] < i ==> Win(r, q) == Win(r', q)
    requires ProgrammedUpTo(bus, b, path, r, i)
    ensures ProgrammedUpTo(bus, b, path, r', i)
    decreases bus, i
  {
    if i > 0 {
      ProgrammedFrame(bus, b, path, r, r', i - 1);
      if bus.fns[i - 1].Bridge? {
        var p := path + [i - 1];
        forall q: Path | p <= q ensures Win(r, q) == Win(r', q) {
          assert q[|path|] == i - 1;
        }
        var below, s := bus.fns[i - 1].below, b + 1 + BridgesUpTo(bus, i - 1);
        assert ProgrammedBridge(below, b, s, p, r);
        assert Programmed(below, s, p, r);
        ProgrammedFrame(below, s, p, r, r', |below.fns|);
      }
    }
  }

  lemma {:induction false} ProgrammedAt(bus: Bus, b: nat, path: Path, regs: Registers, i: nat, k: nat)
    requires k < i <= |bus.fns| && bus.fns[k].Bridge?
    requires ProgrammedUpTo(bus, b, path, regs, i)
    ensures ProgrammedBridge(bus.fns[k].below, b, b + 1 + BridgesUpTo(bus, k), path + [k], regs)
  {
    if k < i - 1 { ProgrammedAt(bus, b, path, regs, i - 1, k); }
  }

  /** A fully programmed tree delivers nothing for a number outside it. */
  lemma {:induction false} OutsideIsSilent(bus: Bus, b: nat, path: Path, regs: Registers, x: nat, k: nat)
    requires Programmed(bus, b, path, regs)
    requires k < |bus.fns|
    requires x <= b + BridgesUpTo(bus, k) || b + BridgesUpTo(bus, k + 1) < x
    ensures Silent(bus, path, regs, x, k)
  {
    if bus.fns[k].Bridge? {
      ProgrammedAt(bus, b, path, regs, |bus.fns|, k);
    }
  }

  /** Every bus of a programmed tree is reached under its preorder number, alone. */
  lemma {:induction false} ProgrammedRoutes(bus: Bus, b: nat, path: Path, regs: Registers, rest: Path)
    requires Programmed(bus, b, path, regs)
    requires IsBusPath(bus, rest) && rest != []
    ensures Delivered(bus, path, regs, Number(bus, b, rest)) == [path + rest]
    decreases rest
  {
    var k, x := rest[0], Number(bus, b, rest);
    NumberRange(bus, b, rest);
    forall j | 0 <= j < |bus.fns| && j != k ensures Silent(bus, path, regs, x, j) {
      if j < k { BridgesMonotone(bus, j + 1, k); } else { BridgesMonotone(bus, k + 1, j); }
      OutsideIsSilent(bus, b, path, regs, x, j);
    }
    OneDelivered(bus, path, regs, x, k, |bus.fns|);
    ProgrammedAt(bus, b, path, regs, |bus.fns|, k);
    var s := b + 1 + BridgesUpTo(bus, k);
    NumberRange(bus.fns[k].below, s, rest[1..]);
    if rest[1..] == [] {
      assert path + rest == path + [k];
    } else {
      ProgrammedRoutes(bus.fns[k].below, s, path + [k], regs, rest[1..]);
      assert path + [k] + rest[1..] == path + rest;
    }
  }

  /** Numbers no bus holds reach nobody. */
  lemma {:induction false} UnassignedIsSilent(bus: Bus, b: nat, path: Path, regs: Registers, x: nat)
    requires Programmed(bus, b, path, regs)
    requires x <= b || b + Bridges(bus) < x
    ensures Delivered(bus, path, regs, x) == []
  {
    forall j | 0 <= j < |bus.fns| ensures Silent(bus, path, regs, x, j) {
      BridgesMonotone(bus, j + 1, |bus.fns|);
      OutsideIsSilent(bus, b, path, regs, x, j);
    }
    NoneDelivered(bus, path, regs, x, |bus.fns|);
  }

  /** Window of the bridge leading to the bus at `rest`. */
  lemma {:induction false} ProgrammedWindow(bus: Bus, b: nat, path: Path, regs: Registers, rest: Path)
    requires Programmed(bus, b, path, regs)
    requires IsBusPath(bus, rest) && rest != []
    ensures Win(regs, path + rest).sec == Number(bus, b, rest)
    ensures Win(regs, path + rest).sub == Number(bus, b, rest) + Bridges(BusAt(bus, rest))
    ensures IsBusPath(bus, rest[..|rest| - 1]) && Win(regs, path + rest).pri == Number(bus, b, rest[..|rest| - 1])
    decreases rest
  {
    var k := rest[0];
    ProgrammedAt(bus, b, path, regs, |bus.fns|, k);
    if |rest| == 1 {
      assert rest == [k];
    } else {
      ProgrammedWindow(bus.fns[k].below, b + 1 + BridgesUpTo(bus, k), path + [k], regs, rest[1..]);
      assert rest[..|rest| - 1][1..] == rest[1..][..|rest| - 2];
      assert path + [k] + rest[1..] == path + rest;
    }
  }

  /** Main numbering theorem: distinct buses get distinct numbers, and one window
      contains the number of another bus exactly when that bus lies below it
      (so windows of relatives nest and all others are disjoint). */
  lemma {:induction false} WindowsNestOrSeparate(bus: Bus, b: nat, p: Path, q: Path)
    requires IsBusPath(bus, p) && IsBusPath(bus, q)
    ensures Number(bus, b, p) <= Number(bus, b, q) <= Number(bus, b, p) + Bridges(BusAt(bus, p)) <==> p <= q
    ensures Number(bus, b, p) == Number(bus, b, q) <==> p == q
    decreases p
  {
    NumberRange(bus, b, p);
    NumberRange(bus, b, q);
    if p == [] {
    } else if q == [] {
    } else if p[0] == q[0] {
      WindowsNestOrSeparate(bus.fns[p[0]].below, b + 1 + BridgesUpTo(bus, p[0]), p[1..], q[1..]);
      assert p == [p[0]] + p[1..] && q == [q[0]] + q[1..];
    } else if p[0] < q[0] {
      BridgesMonotone(bus, p[0] + 1, q[0]);
    } else {
      BridgesMonotone(bus, q[0] + 1, p[0]);
    }
  }

  /** Routing looks at secondary and subordinate numbers only. */
  ghost predicate SameWindows(r: Registers, r': Registers) {
    forall q: Path :: Win(r, q).sec == Win(r', q).sec && Win(r, q).sub == Win(r', q).sub
  }

  lemma {:induction false} RoutingIgnoresPrimary(bus: Bus, path: Path, r: Registers, r': Registers, b: nat, i: nat)
    requires i <= |bus.fns| && SameWindows(r, r')
    ensures DeliveredUpTo(bus, path, r, b, i) == DeliveredUpTo(bus, path, r', b, i)
    decreases bus, i
  {
    if i > 0 {
      RoutingIgnoresPrimary(bus, path, r, r', b, i - 1);
      if bus.fns[i - 1].Bridge? {
        var below, p := bus.fns[i - 1].below, path + [i - 1];
        RoutingIgnoresPrimary(below, p, r, r', b, |below.fns|);
        assert Win(r, p).sec == Win(r', p).sec;
        assert DeliveredVia(below, p, r, b) == DeliveredVia(below, p, r', b);
      }
    }
  }

  /** Each bus is reached under its own number and no other bus is; other numbers reach nobody. */
  ghost predicate RoutesEverywhere(root: Bus, rootBus: nat, regs: Registers) {
    && (forall p: Path :: IsBusPath(root, p) ==> Route(root, rootBus, regs, Number(root, rootBus, p)) == [p])
    && (forall x: nat :: Unassigned(root, rootBus, x) ==> Route(root, rootBus, regs, x) == [])
  }

  ghost predicate Unassigned(root: Bus, rootBus: nat, x: nat) { x < rootBus || rootBus + Bridges(root) < x }

  lemma ProgrammedRoutesEverywhere(root: Bus, rootBus: nat, r: Registers, r': Registers)
    requires Programmed(root, rootBus, [], r) && SameWindows(r, r')
    ensures RoutesEverywhere(root, rootBus, r')
  {
    forall p: Path | IsBusPath(root, p)
      ensures Route(root, rootBus, r', Number(root, rootBus, p)) == [p]
    {
      if p != [] {
        NumberRange(root, rootBus, p);
        ProgrammedRoutes(root, rootBus, [], r, p);
        assert [] + p == p;
        RoutingIgnoresPrimary(root, [], r, r', Number(root, rootBus, p), |root.fns|);
      }
    }
    forall x: nat | Unassigned(root, rootBus, x) ensures Route(root, rootBus, r', x) == [] {
      UnassignedIsSilent(root, rootBus, [], r, x);
      RoutingIgnoresPrimary(root, [], r, r', x, |root.fns|);
    }
  }

  /** So the bus an access reached can be told from the number alone. */
  lemma RouteOf(root: Bus, rootBus: nat, regs: Registers, x: nat) returns (p: Path)
    requires RoutesEverywhere(root, rootBus, regs) && !Unassigned(root, rootBus, x)
    ensures IsBusPath(root, p) && Number(root, rootBus, p) == x && Route(root, rootBus, regs, x) == [p]
  {
    p := NumberOnto(root, rootBus, x);
  }
}
