/** Recursive PCIe bus enumeration, run on a machine whose own configuration
    routing depends on the bridge registers being programmed. */
module BusEnumeration {
  import opened PciAddress
  import opened Topology

  const OPEN_SUB: nat := 0xFF
  const RESET := Window(0, 0, 0)

  /** What a probe of one (bus, dev, func) reads: vendor ID, class code and header type. */
  datatype Reply = NoDevice | HostBridgeClass | Type1Header | Type0Header | UnknownHeader

  function ReplyOf(f: Function): Reply {
    match f
    case Absent => NoDevice
    case HostBridge => HostBridgeClass
    case Endpoint => Type0Header
    case OtherHeader => UnknownHeader
    case Bridge(_) => Type1Header
  }

  /** The function that answers at a position of the bus an access was routed to.
      Without a unique bus there is no device: the read returns all ones. */
  function Occupant(root: Bus, to: seq<Path>, slot: nat): Function {
    if |to| == 1 && IsBusPath(root, to[0]) && slot < |BusAt(root, to[0]).fns|
    then BusAt(root, to[0]).fns[slot]
    else Absent
  }

  // ----- order of visits -----

  ghost function PreorderUpTo(bus: Bus, path: Path, i: nat): seq<Path>
    requires i <= |bus.fns|
    decreases bus, i
  {
    if i == 0 then []
    else PreorderUpTo(bus, path, i - 1) + VisitsAt(bus.fns[i - 1], path + [i - 1])
  }

  ghost function VisitsAt(f: Function, path: Path): seq<Path>
    decreases f
  {
    match f
    case Endpoint => [path]
    case Bridge(below) => [path] + PreorderUpTo(below, path, |below.fns|)
    case _ => []
  }

  /** The device functions of a tree: endpoints and bridges, reached through bridges. */
  ghost predicate IsDevice(bus: Bus, path: Path)
    decreases path
  {
    && path != [] && 0 <= path[0] < |bus.fns|
    && if |path| == 1 then bus.fns[path[0]].Endpoint? || bus.fns[path[0]].Bridge?
       else bus.fns[path[0]].Bridge? && IsDevice(bus.fns[path[0]].below, path[1..])
  }

  lemma {:induction false} PreorderMembers(bus: Bus, path: Path, i: nat, f: Path)
    requires i <= |bus.fns|
    ensures f in PreorderUpTo(bus, path, i) <==>
            path < f && f[|path|] < i && IsDevice(bus, f[|path|..])
    decreases bus, i
  {
    if i > 0 {
      PreorderMembers(bus, path, i - 1, f);
      var p := path + [i - 1];
      if bus.fns[i - 1].Bridge? {
        PreorderMembers(bus.fns[i - 1].below, p, |bus.fns[i - 1].below.fns|, f);
      }
      if path < f && f[|path|] == i - 1 {
        assert p <= f;
        if p == f {
          assert f[|path|..] == [i - 1];
        } else {
          assert f[|path|..][1..] == f[|p|..];
        }
      }
    }
  }

  ghost predicate Distinct<T>(s: seq<T>) {
    forall i, j :: 0 <= i < j < |s| ==> s[i] != s[j]
  }

  /** Enumeration order visits every endpoint and bridge of the tree, each once. */
  lemma {:induction false} PreorderVisitsOnce(bus: Bus, path: Path, i: nat)
    requires i <= |bus.fns|
    ensures Distinct(PreorderUpTo(bus, path, i))
    ensures forall f: Path :: f in PreorderUpTo(bus, path, i) <==>
                              path < f && f[|path|] < i && IsDevice(bus, f[|path|..])
    decreases bus, i
  {
    forall f: Path ensures f in PreorderUpTo(bus, path, i) <==>
                           path < f && f[|path|] < i && IsDevice(bus, f[|path|..]) {
      PreorderMembers(bus, path, i, f);
    }
    if i > 0 {
      PreorderVisitsOnce(bus, path, i - 1);
      var before, p := PreorderUpTo(bus, path, i - 1), path + [i - 1];
      var here := VisitsAt(bus.fns[i - 1], p);
      if bus.fns[i - 1].Bridge? {
        var below := bus.fns[i - 1].below;
        PreorderVisitsOnce(below, p, |below.fns|);
        assert p !in PreorderUpTo(below, p, |below.fns|);
      }
      forall k | 0 <= k < |here| ensures here[k] !in before {
        assert here[k] in here;
        assert p <= here[k];
      }
    }
  }

  // ----- the open path to the bus being scanned -----

  /** While the bus at `rest` (number n) is being scanned, every bridge above it has
      its window open to 0xFF, and every other bridge beside those holds only
      numbers already handed out (or is still zero). */
  ghost predicate OnPath(bus: Bus, path: Path, rest: Path, regs: Registers, n: nat)
    requires IsBusPath(bus, rest)
    decreases rest
  {
    rest == [] ||
    (var k := rest[0];
     var w := Win(regs, path + [k]);
     && w.sub == OPEN_SUB
     && (if |rest| == 1 then w.sec == n else w.sec < n)
     && (forall j :: 0 <= j < |bus.fns| && j != k ==> Below(bus, path, regs, n, j))
     && OnPath(bus.fns[k].below, path + [k], rest[1..], regs, n))
  }

  ghost predicate Below(bus: Bus, path: Path, regs: Registers, n: nat, j: nat)
    requires j < |bus.fns|
  {
    bus.fns[j].Bridge? ==> Win(regs, path + [j]).sec < n && Win(regs, path + [j]).sub < n
  }

  /** With the path open, an access to the scanned bus reaches that bus only. */
  lemma {:induction false} OnPathRoutes(bus: Bus, path: Path, rest: Path, regs: Registers, n: nat)
    requires IsBusPath(bus, rest) && rest != [] && OnPath(bus, path, rest, regs, n)
    requires n <= OPEN_SUB
    ensures Delivered(bus, path, regs, n) == [path + rest]
    decreases rest
  {
    var k := rest[0];
    forall j | 0 <= j < |bus.fns| && j != k ensures Silent(bus, path, regs, n, j) {
      assert Below(bus, path, regs, n, j);
    }
    OneDelivered(bus, path, regs, n, k, |bus.fns|);
    if |rest| == 1 {
      assert path + rest == path + [k];
    } else {
      OnPathRoutes(bus.fns[k].below, path + [k], rest[1..], regs, n);
      assert path + [k] + rest[1..] == path + rest;
    }
  }

  lemma {:induction false} OnPathFrame(bus: Bus, path: Path, rest: Path, r: Registers, r': Registers, n: nat)
    requires IsBusPath(bus, rest) && OnPath(bus, path, rest, r, n)
    requires forall q: Path :: !(path + rest < q) ==> Win(r, q) == Win(r', q)
    ensures OnPath(bus, path, rest, r', n)
    decreases rest
  {
    if rest != [] {
      var k := rest[0];
      assert path + [k] + rest[1..] == path + rest;
      forall j | 0 <= j < |bus.fns| && j != k ensures Below(bus, path, r', n, j) {
        assert Below(bus, path, r, n, j);
        assert !(path + rest < path + [j]);
      }
      assert !(path + rest < path + [k]);
      OnPathFrame(bus.fns[k].below, path + [k], rest[1..], r, r', n);
    }
  }

  /** Opening one more bridge, number s > n, at position k of the scanned bus. */
  lemma {:induction false} OnPathExtend(bus: Bus, path: Path, rest: Path, regs: Registers, n: nat, k: nat, s: nat)
    requires IsBusPath(bus, rest) && OnPath(bus, path, rest, regs, n) && n < s
    requires k < |BusAt(bus, rest).fns| && BusAt(bus, rest).fns[k].Bridge?
    requires Win(regs, path + rest + [k]).sec == s && Win(regs, path + rest + [k]).sub == OPEN_SUB
    requires forall j :: 0 <= j < |BusAt(bus, rest).fns| && j != k ==> Below(BusAt(bus, rest), path + rest, regs, s, j)
    ensures IsBusPath(bus, rest + [k]) && OnPath(bus, path, rest + [k], regs, s)
    decreases rest
  {
    if rest == [] {
      assert path + rest == path && rest + [k] == [k];
      assert [k][1..] == [];
    } else {
      var h := rest[0];
      assert (rest + [k])[1..] == rest[1..] + [k];
      assert path + [h] + rest[1..] == path + rest;
      OnPathExtend(bus.fns[h].below, path + [h], rest[1..], regs, n, k, s);
      forall j | 0 <= j < |bus.fns| && j != h ensures Below(bus, path, regs, s, j) {
        assert Below(bus, path, regs, n, j);
      }
    }
  }

  /** Stepping through one more bridge: where it leads and the number it gets. */
  lemma {:induction false} StepDown(bus: Bus, b: nat, path: Path, k: nat)
    requires WellFormed(bus) && IsBusPath(bus, path)
    ensures WellFormed(BusAt(bus, path))
    ensures k < |BusAt(bus, path).fns| && BusAt(bus, path).fns[k].Bridge? ==>
              && IsBusPath(bus, path + [k])
              && BusAt(bus, path + [k]) == BusAt(bus, path).fns[k].below
              && Number(bus, b, path + [k]) == Number(bus, b, path) + 1 + BridgesUpTo(BusAt(bus, path), k)
    decreases path
  {
    if path == [] {
      assert path + [k] == [k] && [k][1..] == [];
    } else {
      StepDown(bus.fns[path[0]].below, b + 1 + BridgesUpTo(bus, path[0]), path[1..], k);
      assert (path + [k])[1..] == path[1..] + [k];
    }
  }

  /** The registers once the scan behind position k is finished (r') and its window closed (r''). */
  lemma CloseBridge(at: Bus, bus: nat, here: Path, k: nat, r: Registers, r': Registers, r'': Registers)
    requires k < |at.fns| && at.fns[k].Bridge? && ProgrammedUpTo(at, bus, here, r, k)
    requires forall q: Path :: !(here + [k] <= q) ==> Win(r', q) == Win(r, q)
    requires Programmed(at.fns[k].below, bus + 1 + BridgesUpTo(at, k), here + [k], r')
    requires r'' == r'[here + [k] := Window(bus, bus + 1 + BridgesUpTo(at, k),
                                            bus + 1 + BridgesUpTo(at, k) + Bridges(at.fns[k].below))]
    ensures ProgrammedUpTo(at, bus, here, r'', k + 1)
    ensures forall q: Path :: !(here + [k] <= q) ==> Win(r'', q) == Win(r, q)
  {
    var below, child, s := at.fns[k].below, here + [k], bus + 1 + BridgesUpTo(at, k);
    forall q: Path | here < q && q[|here|] < k ensures Win(r, q) == Win(r'', q) {
      assert child[|here|] == k;
    }
    ProgrammedFrame(at, bus, here, r, r'', k);
    ProgrammedFrame(below, s, child, r', r'', |below.fns|);
    assert ProgrammedBridge(below, bus, s, child, r'');
  }

  // ----- the machine and the routine -----

  /** One configuration access: the bus number asked for and the buses it reached. */
  datatype Access = Access(bus: nat, reached: seq<Path>)

  class Machine {
    const root: Bus
    const rootBus: nat
    const endBus: nat
    var regs: Registers
    ghost var visits: seq<Path>
    ghost var accesses: seq<Access>

    constructor (root: Bus, rootBus: nat, endBus: nat)
      ensures this.root == root && this.rootBus == rootBus && this.endBus == endBus
      ensures regs == map[] && visits == [] && accesses == []
    {
      this.root, this.rootBus, this.endBus := root, rootBus, endBus;
      regs, visits, accesses := map[], [], [];
    }

    /** The tree has 256 positions per bus and as many buses as the ECAM range allows. */
    ghost predicate Fits() {
      WellFormed(root) && rootBus + Bridges(root) <= endBus <= 0xFF
    }

    /** The access reached one bus, the one whose final number was asked for, or nobody if no
        bus has that number. */
    ghost predicate Intended(a: Access) {
      if Unassigned(root, rootBus, a.bus) then a.reached == []
      else |a.reached| == 1 && IsBusPath(root, a.reached[0]) && Number(root, rootBus, a.reached[0]) == a.bus
    }

    ghost predicate AllIntended()
      reads this
    {
      forall k :: 0 <= k < |accesses| ==> Intended(accesses[k])
    }

    /** `here` is the bus with number `bus`, and the way to it is open. */
    ghost predicate Scanning(bus: nat, here: Path)
      reads this
    {
      && Fits()
      && IsBusPath(root, here) && Number(root, rootBus, here) == bus
      && OnPath(root, [], here, regs, bus)
    }

    lemma ScanningRoutes(bus: nat, here: Path)
      requires Scanning(bus, here)
      ensures Route(root, rootBus, regs, bus) == [here]
      ensures Intended(Access(bus, [here]))
      ensures |BusAt(root, here).fns| == SLOTS
      ensures bus + Bridges(BusAt(root, here)) <= endBus
    {
      NumberRange(root, rootBus, here);
      StepDown(root, rootBus, here, 0);
      if here != [] {
        OnPathRoutes(root, [], here, regs, bus);
        assert [] + here == here;
      }
    }

    method Probe(bus: nat, dev: nat, func: nat, ghost here: Path) returns (r: Reply)
      requires Scanning(bus, here) && dev < MAX_DEV && func < MAX_FUNC
      modifies this`accesses
      ensures accesses == old(accesses) + [Access(bus, [here])]
      ensures |BusAt(root, here).fns| == SLOTS && r == ReplyOf(BusAt(root, here).fns[dev * MAX_FUNC + func])
      ensures Intended(Access(bus, [here]))
    {
      ScanningRoutes(bus, here);
      var to := Route(root, rootBus, regs, bus);
      accesses := accesses + [Access(bus, to)];
      r := ReplyOf(Occupant(root, to, dev * MAX_FUNC + func));
    }

    /** Writes the bus-number register of the bridge at (bus, dev, func). */
    method WriteBusNumbers(bus: nat, dev: nat, func: nat, w: Window, ghost here: Path)
      requires Scanning(bus, here) && dev < MAX_DEV && func < MAX_FUNC
      requires |BusAt(root, here).fns| == SLOTS && BusAt(root, here).fns[dev * MAX_FUNC + func].Bridge?
      modifies this`accesses, this`regs
      ensures accesses == old(accesses) + [Access(bus, [here])]
      ensures regs == old(regs)[here + [dev * MAX_FUNC + func] := w]
      ensures Intended(Access(bus, [here]))
    {
      ScanningRoutes(bus, here);
      var to := Route(root, rootBus, regs, bus);
      accesses := accesses + [Access(bus, to)];
      if Occupant(root, to, dev * MAX_FUNC + func).Bridge? {
        regs := regs[to[0] + [dev * MAX_FUNC + func] := w];
      }
    }

    /** No bridge at or behind position i or later of `here` has been written yet. */
    ghost predicate Unwritten(here: Path, i: nat)
      reads this
    {
      forall q: Path :: here < q && i <= q[|here|] ==> Win(regs, q) == RESET
    }

    /** Progress of the scan of `here`: the first i positions are done. */
    ghost predicate ScannedUpTo(bus: nat, here: Path, i: nat, before: Registers, seen: seq<Path>)
      requires IsBusPath(root, here)
      reads this
    {
      && Scanning(bus, here) && AllIntended() && Unwritten(here, i)
      && i <= |BusAt(root, here).fns| == SLOTS
      && ProgrammedUpTo(BusAt(root, here), bus, here, regs, i)
      && (forall q: Path :: !(here < q) ==> Win(regs, q) == Win(before, q))
      && visits == seen + PreorderUpTo(BusAt(root, here), here, i)
    }

    method EnumerateDevice(bus: nat, secBus: nat, ghost here: Path) returns (subBus: nat)
      requires Scanning(bus, here) && AllIntended() && Unwritten(here, 0)
      requires secBus == bus + 1
      modifies this`regs, this`visits, this`accesses
      ensures ScannedUpTo(bus, here, SLOTS, old(regs), old(visits))
      ensures subBus == bus + Bridges(BusAt(root, here))
      decreases BusAt(root, here), 2
    {
      ghost var at := BusAt(root, here);
      ScanningRoutes(bus, here);
      subBus := bus;
      if bus == endBus + 1 {
        return;
      }
      var sec := secBus;
      var dev := 0;
      while dev < MAX_DEV
        invariant dev <= MAX_DEV
        invariant ScannedUpTo(bus, here, dev * MAX_FUNC, old(regs), old(visits))
        invariant sec == subBus + 1 == bus + 1 + BridgesUpTo(at, dev * MAX_FUNC)
      {
        var func := 0;
        while func < MAX_FUNC
          invariant func <= MAX_FUNC
          invariant ScannedUpTo(bus, here, dev * MAX_FUNC + func, old(regs), old(visits))
          invariant sec == subBus + 1 == bus + 1 + BridgesUpTo(at, dev * MAX_FUNC + func)
        {
          sec, subBus := ScanFunction(bus, sec, subBus, dev, func, here, old(regs), old(visits));
          func := func + 1;
        }
        dev := dev + 1;
      }
    }

    /** One pass of the inner loop: probe (bus, dev, func) and act on its header type. */
    method ScanFunction(bus: nat, secBus: nat, subBus: nat, dev: nat, func: nat, ghost here: Path,
                        ghost before: Registers, ghost seen: seq<Path>) returns (sec: nat, sub: nat)
      requires dev < MAX_DEV && func < MAX_FUNC
      requires IsBusPath(root, here) && ScannedUpTo(bus, here, dev * MAX_FUNC + func, before, seen)
      requires secBus == subBus + 1 == bus + 1 + BridgesUpTo(BusAt(root, here), dev * MAX_FUNC + func)
      modifies this`regs, this`visits, this`accesses
      ensures ScannedUpTo(bus, here, dev * MAX_FUNC + func + 1, before, seen)
      ensures sec == sub + 1 == bus + 1 + BridgesUpTo(BusAt(root, here), dev * MAX_FUNC + func + 1)
      decreases BusAt(root, here), 1
    {
      sec, sub := secBus, subBus;
      var r := Probe(bus, dev, func, here);
      if r.Type1Header? {
        sub := EnumerateBridge(bus, sec, dev, func, here, before, seen);
        sec := sub + 1;
      } else {
        if r.Type0Header? {
          visits := visits + [here + [dev * MAX_FUNC + func]];
          sub := sec - 1;
        }
        AdvanceLeaf(bus, here, dev * MAX_FUNC + func, before, seen);
      }
    }

    /** A position without a bridge changes no register. */
    lemma AdvanceLeaf(bus: nat, here: Path, k: nat, before: Registers, seen: seq<Path>)
      requires Scanning(bus, here) && AllIntended() && Unwritten(here, k)
      requires k < |BusAt(root, here).fns| == SLOTS && !BusAt(root, here).fns[k].Bridge?
      requires ProgrammedUpTo(BusAt(root, here), bus, here, regs, k)
      requires forall q: Path :: !(here < q) ==> Win(regs, q) == Win(before, q)
      requires visits == seen + PreorderUpTo(BusAt(root, here), here, k)
                         + VisitsAt(BusAt(root, here).fns[k], here + [k])
      ensures ScannedUpTo(bus, here, k + 1, before, seen)
    {
    }

    /** The type 1 header branch: open the bridge, enumerate behind it, close its window. */
    method EnumerateBridge(bus: nat, sec: nat, dev: nat, func: nat, ghost here: Path,
                           ghost before: Registers, ghost seen: seq<Path>) returns (subBus: nat)
      requires dev < MAX_DEV && func < MAX_FUNC
      requires IsBusPath(root, here) && ScannedUpTo(bus, here, dev * MAX_FUNC + func, before, seen)
      requires BusAt(root, here).fns[dev * MAX_FUNC + func].Bridge?
      requires sec == bus + 1 + BridgesUpTo(BusAt(root, here), dev * MAX_FUNC + func)
      modifies this`regs, this`visits, this`accesses
      ensures ScannedUpTo(bus, here, dev * MAX_FUNC + func + 1, before, seen)
      ensures subBus == sec + Bridges(BusAt(root, here).fns[dev * MAX_FUNC + func].below)
      decreases BusAt(root, here), 0
    {
      ghost var k := dev * MAX_FUNC + func;
      StepDown(root, rootBus, here, k);
      OpenWindow(bus, sec, dev, func, here, before, seen);
      subBus := EnumerateDevice(sec, sec + 1, here + [k]);
      assert forall q: Path :: !(here + [k] <= q) ==> Win(regs, q) == Win(old(regs), q);
      CloseWindow(bus, sec, subBus, dev, func, here, before, seen, old(regs));
    }

    method OpenWindow(bus: nat, sec: nat, dev: nat, func: nat, ghost here: Path,
                      ghost before: Registers, ghost seen: seq<Path>)
      requires dev < MAX_DEV && func < MAX_FUNC
      requires IsBusPath(root, here) && ScannedUpTo(bus, here, dev * MAX_FUNC + func, before, seen)
      requires BusAt(root, here).fns[dev * MAX_FUNC + func].Bridge?
      requires sec == bus + 1 + BridgesUpTo(BusAt(root, here), dev * MAX_FUNC + func)
      modifies this`regs, this`visits, this`accesses
      ensures Scanning(sec, here + [dev * MAX_FUNC + func]) && Unwritten(here + [dev * MAX_FUNC + func], 0)
      ensures AllIntended()
      ensures regs == old(regs)[here + [dev * MAX_FUNC + func] := Window(bus, sec, OPEN_SUB)]
      ensures visits == old(visits) + [here + [dev * MAX_FUNC + func]]
    {
      ghost var k := dev * MAX_FUNC + func;
      WriteBusNumbers(bus, dev, func, Window(bus, sec, OPEN_SUB), here);
      visits := visits + [here + [k]];
      OpenBridge(bus, sec, here, k, old(regs));
    }

    method CloseWindow(bus: nat, sec: nat, sub: nat, dev: nat, func: nat, ghost here: Path,
                       ghost before: Registers, ghost seen: seq<Path>, ghost r: Registers)
      requires dev < MAX_DEV && func < MAX_FUNC && AllIntended()
      requires Fits() && IsBusPath(root, here) && Number(root, rootBus, here) == bus
      requires OnPath(root, [], here, r, bus)
      requires |BusAt(root, here).fns| == SLOTS && BusAt(root, here).fns[dev * MAX_FUNC + func].Bridge?
      requires sec == bus + 1 + BridgesUpTo(BusAt(root, here), dev * MAX_FUNC + func)
      requires sub == sec + Bridges(BusAt(root, here).fns[dev * MAX_FUNC + func].below)
      requires ProgrammedUpTo(BusAt(root, here), bus, here, r, dev * MAX_FUNC + func)
      requires forall q: Path :: here < q && dev * MAX_FUNC + func <= q[|here|] ==> Win(r, q) == RESET
      requires forall q: Path :: !(here < q) ==> Win(r, q) == Win(before, q)
      requires forall q: Path :: !(here + [dev * MAX_FUNC + func] <= q) ==> Win(regs, q) == Win(r, q)
      requires Programmed(BusAt(root, here).fns[dev * MAX_FUNC + func].below, sec, here + [dev * MAX_FUNC + func], regs)
      requires visits == seen + PreorderUpTo(BusAt(root, here), here, dev * MAX_FUNC + func)
                         + VisitsAt(BusAt(root, here).fns[dev * MAX_FUNC + func], here + [dev * MAX_FUNC + func])
      modifies this`regs, this`accesses
      ensures ScannedUpTo(bus, here, dev * MAX_FUNC + func + 1, before, seen)
    {
      ghost var inner := regs;
      assert [] + here == here;
      OnPathFrame(root, [], here, r, inner, bus);
      WriteBusNumbers(bus, dev, func, Window(bus, sec, sub), here);
      FinishBridge(bus, here, dev * MAX_FUNC + func, before, seen, r, inner);
    }

    /** The scan behind position k is finished and its window closed: one more position is done. */
    lemma FinishBridge(bus: nat, here: Path, k: nat, before: Registers, seen: seq<Path>, r: Registers, inner: Registers)
      requires Fits() && IsBusPath(root, here) && Number(root, rootBus, here) == bus
      requires OnPath(root, [], here, r, bus) && AllIntended()
      requires k < |BusAt(root, here).fns| == SLOTS && BusAt(root, here).fns[k].Bridge?
      requires ProgrammedUpTo(BusAt(root, here), bus, here, r, k)
      requires forall q: Path :: here < q && k <= q[|here|] ==> Win(r, q) == RESET
      requires forall q: Path :: !(here < q) ==> Win(r, q) == Win(before, q)
      requires forall q: Path :: !(here + [k] <= q) ==> Win(inner, q) == Win(r, q)
      requires var s := bus + 1 + BridgesUpTo(BusAt(root, here), k);
               Programmed(BusAt(root, here).fns[k].below, s, here + [k], inner)
      requires regs == inner[here + [k] := Window(bus, bus + 1 + BridgesUpTo(BusAt(root, here), k),
                               bus + 1 + BridgesUpTo(BusAt(root, here), k) + Bridges(BusAt(root, here).fns[k].below))]
      requires visits == seen + PreorderUpTo(BusAt(root, here), here, k)
                         + VisitsAt(BusAt(root, here).fns[k], here + [k])
      ensures ScannedUpTo(bus, here, k + 1, before, seen)
    {
      var at := BusAt(root, here);
      CloseBridge(at, bus, here, k, r, inner, regs);
      OnPathFrame(root, [], here, r, regs, bus);
      forall q: Path | here < q && k + 1 <= q[|here|] ensures Win(regs, q) == RESET {
        assert (here + [k])[|here|] == k;
      }
    }

    /** After the provisional write the child bus can be scanned in turn. */
    lemma OpenBridge(bus: nat, sec: nat, here: Path, k: nat, before: Registers)
      requires Fits() && IsBusPath(root, here) && Number(root, rootBus, here) == bus
      requires OnPath(root, [], here, before, bus)
      requires k < |BusAt(root, here).fns| && BusAt(root, here).fns[k].Bridge?
      requires sec == bus + 1 + BridgesUpTo(BusAt(root, here), k)
      requires ProgrammedUpTo(BusAt(root, here), bus, here, before, k)
      requires forall q: Path :: here < q && k <= q[|here|] ==> Win(before, q) == RESET
      requires regs == before[here + [k] := Window(bus, sec, OPEN_SUB)]
      ensures Scanning(sec, here + [k]) && Unwritten(here + [k], 0)
    {
      var at := BusAt(root, here);
      OnPathFrame(root, [], here, before, regs, bus);
      forall j | 0 <= j < |at.fns| && j != k ensures Below(at, here, regs, sec, j) {
        if at.fns[j].Bridge? && j < k {
          ProgrammedAt(at, bus, here, before, k, j);
          BridgesMonotone(at, j + 1, k);
        } else {
          assert (here + [j])[|here|] == j;
        }
      }
      assert [] + here == here;
      OnPathExtend(root, [], here, regs, bus, k, sec);
      StepDown(root, rootBus, here, k);
    }

    /** The bridge at position j of the bus at p has its primary number cleared. */
    ghost predicate Cleared(p: Path, j: nat)
      reads this
    {
      IsBusPath(root, p) && j < |BusAt(root, p).fns| && BusAt(root, p).fns[j].Bridge? ==> Win(regs, p + [j]).pri == 0
    }

    ghost predicate DoneBefore(p: Path, j: nat, x: nat, i: nat)
      requires IsBusPath(root, p)
    {
      Number(root, rootBus, p) < x || (Number(root, rootBus, p) == x && j < i)
    }

    /** Everything on buses below number x, and the first i positions of bus x, is cleared. */
    ghost predicate ClearedUpTo(x: nat, i: nat)
      reads this
    {
      forall p: Path, j: nat ::
        IsBusPath(root, p) && j < SLOTS && DoneBefore(p, j, x, i) ==> Cleared(p, j)
    }

    /** Clears the primary bus number of every bridge, found again through the programmed windows. */
    method ClearPrimaryBus()
      requires Fits() && Programmed(root, rootBus, [], regs) && AllIntended()
      modifies this`regs, this`accesses
      ensures SameWindows(old(regs), regs) && AllIntended()
      ensures ClearedUpTo(endBus + 1, 0)
    {
      var bus := 0;
      while bus <= endBus
        invariant bus <= endBus + 1
        invariant SameWindows(old(regs), regs) && ClearedUpTo(bus, 0) && AllIntended()
      {
        var slot := 0;
        while slot < SLOTS
          invariant slot <= SLOTS
          invariant SameWindows(old(regs), regs) && ClearedUpTo(bus, slot) && AllIntended()
        {
          ClearSlot(bus, slot, old(regs));
          slot := slot + 1;
        }
        bus := bus + 1;
      }
    }

    method ClearSlot(bus: nat, slot: nat, ghost programmed: Registers)
      requires Fits() && Programmed(root, rootBus, [], programmed) && AllIntended()
      requires SameWindows(programmed, regs) && slot < SLOTS && ClearedUpTo(bus, slot)
      modifies this`regs, this`accesses
      ensures SameWindows(programmed, regs) && ClearedUpTo(bus, slot + 1) && AllIntended()
    {
      ProgrammedRoutesEverywhere(root, rootBus, programmed, regs);
      var to := Locate(bus);
      if Occupant(root, to, slot).Bridge? {
        var q := to[0] + [slot];
        regs := regs[q := Win(regs, q).(pri := 0)];
      }
      forall p: Path, j: nat | IsBusPath(root, p) && j < SLOTS && DoneBefore(p, j, bus, slot + 1)
        ensures Cleared(p, j)
      {
        if DoneBefore(p, j, bus, slot) {
          assert old(Cleared(p, j));
        }
      }
    }

    /** One routed access of the clearing pass. */
    method Locate(bus: nat) returns (to: seq<Path>)
      requires RoutesEverywhere(root, rootBus, regs) && AllIntended()
      modifies this`accesses
      ensures to == Route(root, rootBus, regs, bus)
      ensures accesses == old(accesses) + [Access(bus, to)] && AllIntended()
    {
      to := Route(root, rootBus, regs, bus);
      if !Unassigned(root, rootBus, bus) {
        ghost var p := RouteOf(root, rootBus, regs, bus);
      }
      accesses := accesses + [Access(bus, to)];
    }

    /** One hierarchy from reset: number it, then clear the primary numbers. */
    method EnumerateHierarchy()
      requires Fits() && regs == map[] && visits == [] && accesses == []
      modifies this`regs, this`visits, this`accesses
      ensures RoutesEverywhere(root, rootBus, regs)
      ensures forall p: Path :: p != [] && IsBusPath(root, p) ==>
                Win(regs, p) == Window(0, Number(root, rootBus, p), Number(root, rootBus, p) + Bridges(BusAt(root, p)))
      ensures AllIntended()
      ensures Distinct(visits) && forall f: Path :: f in visits <==> IsDevice(root, f)
    {
      var last := EnumerateDevice(rootBus, rootBus + 1, []);
      ghost var numbered := regs;
      PreorderVisitsOnce(root, [], SLOTS);
      assert visits == PreorderUpTo(root, [], SLOTS);
      forall f: Path ensures f in visits <==> IsDevice(root, f) {
        if f != [] { assert f[0..] == f; }
      }
      ClearPrimaryBus();
      ProgrammedRoutesEverywhere(root, rootBus, numbered, regs);
      forall p: Path | p != [] && IsBusPath(root, p)
        ensures Win(regs, p) == Window(0, Number(root, rootBus, p), Number(root, rootBus, p) + Bridges(BusAt(root, p)))
      {
        ProgrammedWindow(root, rootBus, [], numbered, p);
        assert [] + p == p;
        ParentOf(p);
      }
    }

    lemma ParentOf(p: Path)
      requires Fits() && p != [] && IsBusPath(root, p) && ClearedUpTo(endBus + 1, 0)
      ensures Win(regs, p).pri == 0
    {
      var parent, j := p[..|p| - 1], p[|p| - 1];
      BusPathPrefix(root, p, |p| - 1);
      NumberRange(root, rootBus, parent);
      StepDown(root, rootBus, parent, 0);
      assert p == parent + [j];
      assert Cleared(parent, j);
    }
  }

  /** Prefixes of a bus path are bus paths, and the next step is through a bridge. */
  lemma {:induction false} BusPathPrefix(bus: Bus, p: Path, n: nat)
    requires IsBusPath(bus, p) && n <= |p|
    ensures IsBusPath(bus, p[..n])
    ensures n < |p| ==> 0 <= p[n] < |BusAt(bus, p[..n]).fns| && BusAt(bus, p[..n]).fns[p[n]].Bridge?
    decreases p
  {
    if n > 0 {
      BusPathPrefix(bus.fns[p[0]].below, p[1..], n - 1);
      assert p[..n][1..] == p[1..][..n - 1];
    }
  }
}
