/** Upstream root port lookup over the device table, on an enumerated hierarchy. */
module RootPort {
  import opened Arithmetic
  import opened BdfTraversal
  import opened BusEnumeration
  import opened PciAddress
  import opened Topology
  import opened Wrappers

  /** Device/port type from the PCIe capability; only these matter to the lookup. */
  datatype PortType = RootPort | IntegratedRootPort | RcIntegratedEndpoint | RcEventCollector | OtherType

  predicate IsRootPort(t: PortType) { t.RootPort? || t.IntegratedRootPort? }

  /** What reading a function's type and bus-number registers returns. */
  datatype Reading = Reading(portType: PortType, sec: nat, sub: nat)

  /** One enumerated segment, plus whatever the functions of other segments read and probe
      as. `kept` tells which functions have a PCIe capability and pass the platform's check. */
  datatype System = System(
    seg: nat, root: Bus, rootBus: nat, regs: Registers, types: Path -> PortType, kept: Path -> bool,
    elsewhere: Bdf -> Reading, probes: Bdf -> Probe)

  const NO_ROOT_PORT := Bdf(0xFF, 0xFF, 0xFF, 0xFF)
  const ZERO_BDF := Bdf(0, 0, 0, 0)

  function SlotOf(b: Bdf): nat { b.dev * MAX_FUNC + b.func }

  /** A configuration read, routed by the programmed windows. */
  function Read(sys: System, b: Bdf): Reading {
    if b.seg != sys.seg then sys.elsewhere(b)
    else
      var to := Route(sys.root, sys.rootBus, sys.regs, b.bus);
      if |to| == 1 then
        var f := to[0] + [SlotOf(b)];
        Reading(sys.types(f), Win(sys.regs, f).sec, Win(sys.regs, f).sub)
      else Reading(OtherType, 0xFF, 0xFF)
  }

  /** What the table routine finds at a BDF. A function with neither a type 0 nor a type 1
      header is conventional PCI and has no PCIe capability. */
  function ProbeAt(sys: System, b: Bdf): Probe {
    if b.seg != sys.seg then sys.probes(b)
    else
      var to := Route(sys.root, sys.rootBus, sys.regs, b.bus);
      match Occupant(sys.root, to, SlotOf(b))
      case Absent => NoResponse
      case HostBridge => Probe.HostBridge
      case OtherHeader => Legacy
      case _ => if |to| == 1 && sys.kept(to[0] + [SlotOf(b)]) then Device else Rejected
  }

  /** The state enumeration leaves: every bus routed under its number, every window
      final, and exactly the bridges on the root bus typed as root ports. */
  ghost predicate Enumerated(sys: System) {
    && WellFormed(sys.root)
    && RoutesEverywhere(sys.root, sys.rootBus, sys.regs)
    && (forall p: Path :: p != [] && IsBusPath(sys.root, p) ==>
          && Win(sys.regs, p).sec == Number(sys.root, sys.rootBus, p)
          && Win(sys.regs, p).sub == Number(sys.root, sys.rootBus, p) + Bridges(BusAt(sys.root, p)))
    && TypedAsRootPorts(sys)
  }

  ghost predicate TypedAsRootPorts(sys: System) {
    forall f: Path :: IsDevice(sys.root, f) ==>
      (IsRootPort(sys.types(f)) <==> |f| == 1 && sys.root.fns[f[0]].Bridge?)
  }

  lemma {:induction false} DeviceBus(bus: Bus, f: Path)
    requires IsDevice(bus, f)
    ensures IsBusPath(bus, f[..|f| - 1])
    ensures var at := BusAt(bus, f[..|f| - 1]); var k := f[|f| - 1];
            0 <= k < |at.fns| && (at.fns[k].Endpoint? || at.fns[k].Bridge?)
    decreases f
  {
    if |f| > 1 {
      DeviceBus(bus.fns[f[0]].below, f[1..]);
      assert f[..|f| - 1][1..] == f[1..][..|f| - 2];
    }
  }

  /** Conversely, an endpoint or bridge on a bus is a device. */
  lemma {:induction false} BusDevice(bus: Bus, p: Path, k: nat)
    requires IsBusPath(bus, p) && k < |BusAt(bus, p).fns|
    requires BusAt(bus, p).fns[k].Endpoint? || BusAt(bus, p).fns[k].Bridge?
    ensures IsDevice(bus, p + [k])
    decreases p
  {
    if p != [] {
      BusDevice(bus.fns[p[0]].below, p[1..], k);
      assert (p + [k])[1..] == p[1..] + [k];
    }
  }

  ghost function BdfOf(sys: System, f: Path): Bdf
    requires IsDevice(sys.root, f)
  {
    DeviceBus(sys.root, f);
    var k: nat := f[|f| - 1];
    Bdf(sys.seg, Number(sys.root, sys.rootBus, f[..|f| - 1]), k / MAX_FUNC, k % MAX_FUNC)
  }

  /** Where an access to a device's BDF goes. */
  lemma DeviceRoute(sys: System, f: Path)
    requires Enumerated(sys) && IsDevice(sys.root, f)
    ensures Route(sys.root, sys.rootBus, sys.regs, BdfOf(sys, f).bus) == [f[..|f| - 1]]
    ensures SlotOf(BdfOf(sys, f)) == f[|f| - 1] && f[..|f| - 1] + [f[|f| - 1]] == f
    ensures IsBusPath(sys.root, f[..|f| - 1])
  {
    BdfInNumbers(sys, f);
    RouteHome(sys, f[..|f| - 1]);
    SlotBack(sys.seg, BdfOf(sys, f).bus, f[|f| - 1]);
    LastStep(f);
  }

  lemma RouteHome(sys: System, home: Path)
    requires Enumerated(sys) && IsBusPath(sys.root, home)
    ensures Route(sys.root, sys.rootBus, sys.regs, Number(sys.root, sys.rootBus, home)) == [home]
  {
  }

  lemma SlotBack(seg: nat, bus: nat, k: nat)
    ensures SlotOf(Bdf(seg, bus, k / 8, k % 8)) == k
  {
    Euclid(k, 8);
  }

  lemma LastStep(f: Path)
    requires f != []
    ensures f[..|f| - 1] + [f[|f| - 1]] == f
  {
  }

  /** Reading at a device's BDF reads that device. */
  lemma ReadDevice(sys: System, f: Path)
    requires Enumerated(sys) && IsDevice(sys.root, f)
    ensures Read(sys, BdfOf(sys, f)) == Reading(sys.types(f), Win(sys.regs, f).sec, Win(sys.regs, f).sub)
  {
    DeviceRoute(sys, f);
  }

  // ----- the lookup -----

  predicate Matches(sys: System, bdf: Bdf, candidate: Bdf) {
    var r := Read(sys, candidate);
    IsRootPort(r.portType) && r.sec <= bdf.bus <= r.sub && candidate.seg == bdf.seg
  }

  /** The answer to any lookup on any table: by the function's own type, else the first
      matching entry. */
  ghost predicate Answers(sys: System, table: seq<Bdf>, bdf: Bdf, status: int, rp: Bdf) {
    var t := Read(sys, bdf).portType;
    if IsRootPort(t) then status == 0 && rp == bdf
    else if t.RcIntegratedEndpoint? || t.RcEventCollector? then status == 1 && rp == NO_ROOT_PORT
    else
      || (status == 1 && rp == ZERO_BDF && forall i :: 0 <= i < |table| ==> !Matches(sys, bdf, table[i]))
      || (status == 0 && exists i :: 0 <= i < |table| && FirstMatch(sys, table, bdf, i) && rp == table[i])
  }

  ghost predicate FirstMatch(sys: System, table: seq<Bdf>, bdf: Bdf, i: int) {
    && 0 <= i < |table| && Matches(sys, bdf, table[i])
    && forall j :: 0 <= j < i ==> !Matches(sys, bdf, table[j])
  }

  method GetRootPort(sys: System, table: seq<Bdf>, bdf: Bdf) returns (status: int, rp: Bdf)
    ensures Answers(sys, table, bdf, status, rp)
  {
    var t := Read(sys, bdf).portType;
    if IsRootPort(t) { return 0, bdf; }
    if t.RcIntegratedEndpoint? || t.RcEventCollector? { return 1, NO_ROOT_PORT; }
    var index := 0;
    while index < |table|
      invariant index <= |table|
      invariant forall i :: 0 <= i < index ==> !Matches(sys, bdf, table[i])
    {
      rp := table[index];
      var r := Read(sys, rp);
      if IsRootPort(r.portType) && r.sec <= bdf.bus && r.sub >= bdf.bus && rp.seg == bdf.seg {
        assert FirstMatch(sys, table, bdf, index);
        return 0, rp;
      }
      index := index + 1;
    }
    return 1, ZERO_BDF;
  }

  ghost predicate Answered(sys: System, table: seq<Bdf>, bdf: Bdf, rp: Bdf) {
    exists status :: Answers(sys, table, bdf, status, rp)
  }

  /** Fills in the root port of every table entry. */
  method PopulateRootPorts(sys: System, table: seq<Bdf>) returns (rps: seq<Bdf>)
    ensures |rps| == |table|
    ensures forall i :: 0 <= i < |table| ==> Answered(sys, table, table[i], rps[i])
  {
    rps := [];
    while |rps| < |table|
      invariant |rps| <= |table|
      invariant forall i :: 0 <= i < |rps| ==> Answered(sys, table, table[i], rps[i])
      decreases |table| - |rps|
    {
      var status, rp := GetRootPort(sys, table, table[|rps|]);
      assert Answered(sys, table, table[|rps|], rp);
      rps := rps + [rp];
    }
  }

  // ----- what the answers mean on an enumerated segment -----

  /** The answers that do not depend on the table. */
  lemma AnswersByType(sys: System, table: seq<Bdf>, bdf: Bdf, status: int, rp: Bdf)
    requires Answers(sys, table, bdf, status, rp)
    ensures var t := Read(sys, bdf).portType;
            && (t == RootPort || t == IntegratedRootPort ==> status == 0 && rp == bdf)
            && (t == RcIntegratedEndpoint || t == RcEventCollector ==> status == 1 && rp == Bdf(0xFF, 0xFF, 0xFF, 0xFF))
            && (t == OtherType ==>
                  if status == 0 then rp in table && FitsUnder(sys, bdf, rp)
                  else status == 1 && rp == Bdf(0, 0, 0, 0) && forall c :: c in table ==> !FitsUnder(sys, bdf, c))
  {
  }

  /** The candidate is a root port of the same segment whose window holds the bus. */
  ghost predicate FitsUnder(sys: System, bdf: Bdf, c: Bdf) {
    && (Read(sys, c).portType == RootPort || Read(sys, c).portType == IntegratedRootPort)
    && Read(sys, c).sec <= bdf.bus && bdf.bus <= Read(sys, c).sub && c.seg == bdf.seg
  }

  /** A device's BDF: its bus's number, and its position as device and function. */
  lemma BdfInNumbers(sys: System, f: Path)
    requires IsDevice(sys.root, f)
    ensures IsBusPath(sys.root, f[..|f| - 1]) && f[|f| - 1] >= 0
    ensures BdfOf(sys, f) ==
            Bdf(sys.seg, Number(sys.root, sys.rootBus, f[..|f| - 1]), f[|f| - 1] / 8, f[|f| - 1] % 8)
  {
    DeviceBus(sys.root, f);
  }

  /** Among the devices of the segment, the only root port whose window holds the
      bus of f is the one f sits below. */
  lemma UniqueRootPort(sys: System, f: Path, g: Path)
    requires Enumerated(sys) && IsDevice(sys.root, f) && IsDevice(sys.root, g)
    ensures Matches(sys, BdfOf(sys, f), BdfOf(sys, g)) <==> |f| > 1 && g == [f[0]]
  {
    ReadDevice(sys, g);
    DeviceBus(sys.root, f);
    var home := f[..|f| - 1];
    if |g| == 1 && sys.root.fns[g[0]].Bridge? {
      assert g[1..] == [];
      assert IsBusPath(sys.root, g);
      WindowsNestOrSeparate(sys.root, sys.rootBus, g, home);
      assert g <= home <==> |f| > 1 && g[0] == f[0];
    }
  }

  /** The table holds only devices of this segment and functions of other segments. */
  ghost predicate Lists(sys: System, table: seq<Bdf>) {
    forall i :: 0 <= i < |table| && table[i].seg == sys.seg ==> IsDeviceBdf(sys, table[i])
  }

  ghost predicate IsDeviceBdf(sys: System, b: Bdf) {
    exists g: Path :: IsDevice(sys.root, g) && b == BdfOf(sys, g)
  }

  /** Which root port a device gets, told by the tree and by membership in the table alone. */
  ghost function Expected(sys: System, table: seq<Bdf>, f: Path): (int, Bdf)
    requires IsDevice(sys.root, f)
  {
    if IsRootPort(sys.types(f)) then (0, BdfOf(sys, f))
    else if sys.types(f).RcIntegratedEndpoint? || sys.types(f).RcEventCollector? then (1, NO_ROOT_PORT)
    else if |f| > 1 && BdfOf(sys, [f[0]]) in table then (0, BdfOf(sys, [f[0]]))
    else (1, ZERO_BDF)
  }

  /** Whatever the order of the table, a device gets the root port above it, if listed. */
  lemma AnswerIsRootPort(sys: System, table: seq<Bdf>, f: Path, status: int, rp: Bdf)
    requires Enumerated(sys) && Lists(sys, table) && IsDevice(sys.root, f)
    requires Answers(sys, table, BdfOf(sys, f), status, rp)
    ensures (status, rp) == Expected(sys, table, f)
  {
    ReadDevice(sys, f);
    var bdf := BdfOf(sys, f);
    forall i | 0 <= i < |table| ensures Matches(sys, bdf, table[i]) <==> |f| > 1 && table[i] == BdfOf(sys, [f[0]]) {
      MatchIsAbove(sys, f, table[i]);
    }
  }

  lemma MatchIsAbove(sys: System, f: Path, c: Bdf)
    requires Enumerated(sys) && IsDevice(sys.root, f) && (c.seg == sys.seg ==> IsDeviceBdf(sys, c))
    ensures Matches(sys, BdfOf(sys, f), c) <==> |f| > 1 && c == BdfOf(sys, [f[0]])
  {
    if |f| > 1 { UniqueRootPort(sys, f, [f[0]]); }
    if c.seg == sys.seg {
      var g: Path :| IsDevice(sys.root, g) && c == BdfOf(sys, g);
      UniqueRootPort(sys, f, g);
    }
  }

  // ----- the table built after enumeration -----

  /** The table routine finds a device exactly at the devices that pass its filters. */
  lemma ProbeDevices(sys: System, b: Bdf)
    requires Enumerated(sys) && b.seg == sys.seg && b.dev < MAX_DEV && b.func < MAX_FUNC
    ensures ProbeAt(sys, b).Device? <==> exists f: Path :: IsDevice(sys.root, f) && b == BdfOf(sys, f) && sys.kept(f)
  {
    if f: Path :| IsDevice(sys.root, f) && b == BdfOf(sys, f) && sys.kept(f) {
      DeviceRoute(sys, f);
      DeviceBus(sys.root, f);
    }
    if ProbeAt(sys, b).Device? { ProbedIsDevice(sys, b); }
  }

  lemma ProbedIsDevice(sys: System, b: Bdf)
    requires Enumerated(sys) && b.seg == sys.seg && b.dev < MAX_DEV && b.func < MAX_FUNC && ProbeAt(sys, b).Device?
    ensures exists f: Path :: IsDevice(sys.root, f) && b == BdfOf(sys, f) && sys.kept(f)
  {
    assert !Unassigned(sys.root, sys.rootBus, b.bus);
    var p := RouteOf(sys.root, sys.rootBus, sys.regs, b.bus);
    BusDevice(sys.root, p, SlotOf(b));
    var f := p + [SlotOf(b)];
    assert f[..|f| - 1] == p;
    RemainderUnique(SlotOf(b), MAX_FUNC, b.dev, b.func);
    assert b == BdfOf(sys, f);
  }

  /** The ECAM regions reach every bus of the segment. */
  ghost predicate Reaches(es: seq<Ecam>, sys: System) {
    exists e :: 0 <= e < |es| && es[e].seg == sys.seg
                && es[e].first <= sys.rootBus && sys.rootBus + Bridges(sys.root) <= es[e].last
  }

  /** A complete table holds exactly the devices of the segment that pass the filters, and
      otherwise only functions of other segments. */
  lemma BuiltTable(sys: System, es: seq<Ecam>, probe: Bdf -> Probe, table: seq<Bdf>)
    requires Enumerated(sys) && EcamsOk(es) && Reaches(es, sys)
    requires Scanned(Visits(es), probe, table, |Visits(es)|) && forall b :: probe(b) == ProbeAt(sys, b)
    ensures Lists(sys, table)
    ensures forall f: Path :: IsDevice(sys.root, f) ==> (BdfOf(sys, f) in table <==> sys.kept(f))
  {
    var visits := Visits(es);
    TableMembers(visits, probe, |visits|, table);
    assert visits[..|visits|] == visits;
    forall b | b in table && b.seg == sys.seg ensures IsDeviceBdf(sys, b) {
      VisitsCover(es, b);
      ProbeDevices(sys, b);
    }
    forall f: Path | IsDevice(sys.root, f) ensures BdfOf(sys, f) in table <==> sys.kept(f) {
      var b := BdfOf(sys, f);
      DeviceCovered(sys, es, f);
      VisitsCover(es, b);
      ProbeDevices(sys, b);
      SameDevice(sys, f);
    }
  }

  lemma DeviceCovered(sys: System, es: seq<Ecam>, f: Path)
    requires Enumerated(sys) && EcamsOk(es) && Reaches(es, sys) && IsDevice(sys.root, f)
    ensures Covered(es, BdfOf(sys, f)) && BdfOf(sys, f).dev < MAX_DEV && BdfOf(sys, f).func < MAX_FUNC
  {
    DeviceBus(sys.root, f);
    var home := f[..|f| - 1];
    NumberRange(sys.root, sys.rootBus, home);
    StepDown(sys.root, sys.rootBus, home, 0);
    var b := BdfOf(sys, f);
    var e :| 0 <= e < |es| && es[e].seg == sys.seg
             && es[e].first <= sys.rootBus && sys.rootBus + Bridges(sys.root) <= es[e].last;
    assert Valid(es, Pos(e, b.bus, b.dev, b.func)) && BdfAt(es, Pos(e, b.bus, b.dev, b.func)) == b;
  }

  /** A BDF names one device. */
  lemma SameDevice(sys: System, f: Path)
    requires Enumerated(sys) && IsDevice(sys.root, f)
    ensures forall g: Path :: IsDevice(sys.root, g) && BdfOf(sys, g) == BdfOf(sys, f) ==> g == f
  {
    DeviceRoute(sys, f);
    forall g: Path | IsDevice(sys.root, g) && BdfOf(sys, g) == BdfOf(sys, f) ensures g == f {
      DeviceRoute(sys, g);
    }
  }

  /** From reset to filled table: enumerate, build the table, look up every entry. A device
      that passes the filters is listed, and gets the root port above it if that one passes
      them too. `reset` is the system before enumeration. */
  method EnumerateAndPopulate(m: Machine, reset: System, devices: DeviceTable, es: seq<Ecam>)
    returns (status: int, rps: seq<Bdf>)
    requires m.Fits() && m.regs == map[] && m.visits == [] && m.accesses == [] && devices.table == None
    requires reset.root == m.root && reset.rootBus == m.rootBus && TypedAsRootPorts(reset)
    requires EcamsOk(es) && Reaches(es, reset)
    modifies m`regs, m`visits, m`accesses, devices
    ensures status == 0 <==>
              forall p: Pos :: Valid(es, p) && es[p.e].seg != reset.seg ==> reset.probes(BdfAt(es, p)) != NoMapping
    ensures status == 0 ==>
              && devices.table.Some? && |rps| == |devices.table.value|
              && forall f: Path :: IsDevice(m.root, f) && reset.kept(f) ==>
                  HasRootPort(reset, devices.table.value, rps, f)
  {
    m.EnumerateHierarchy();
    var sys := reset.(regs := m.regs);
    status, rps := BuildAndPopulate(sys, devices, es);
    forall f: Path | status == 0 && IsDevice(m.root, f) && reset.kept(f)
      ensures HasRootPort(reset, devices.table.value, rps, f)
    {
      SameBdfs(reset, sys, devices.table.value, f);
    }
  }

  /** val_pcie_create_device_bdf_table on an enumerated segment, with the lookups it ends with. */
  method BuildAndPopulate(sys: System, devices: DeviceTable, es: seq<Ecam>) returns (status: int, rps: seq<Bdf>)
    requires Enumerated(sys) && EcamsOk(es) && Reaches(es, sys) && devices.table == None
    modifies devices
    ensures status == 0 <==>
              forall p: Pos :: Valid(es, p) && es[p.e].seg != sys.seg ==> sys.probes(BdfAt(es, p)) != NoMapping
    ensures status == 0 ==>
              && devices.table.Some? && |rps| == |devices.table.value|
              && forall f: Path :: IsDevice(sys.root, f) && sys.kept(f) ==>
                  HasRootPort(sys, devices.table.value, rps, f)
  {
    var probe := b => ProbeAt(sys, b);
    status := devices.Create(true, es, probe);
    OwnSegmentMapped(sys, es, probe);
    rps := [];
    if status == 0 {
      var table := devices.table.value;
      rps := PopulateRootPorts(sys, table);
      BuiltTable(sys, es, probe, table);
      forall f: Path | IsDevice(sys.root, f) && sys.kept(f) ensures HasRootPort(sys, table, rps, f) {
        EntryOf(sys, table, rps, f);
      }
    }
  }

  /** Only functions of other segments can lack a mapping. */
  lemma OwnSegmentMapped(sys: System, es: seq<Ecam>, probe: Bdf -> Probe)
    requires Reaches(es, sys) && forall b :: probe(b) == ProbeAt(sys, b)
    ensures |es| > 0
    ensures AllMapped(es, probe) <==>
              forall p: Pos :: Valid(es, p) && es[p.e].seg != sys.seg ==> sys.probes(BdfAt(es, p)) != NoMapping
  {
  }

  /** Device f is in the table, and each of its entries has the expected root port. */
  ghost predicate HasRootPort(sys: System, table: seq<Bdf>, rps: seq<Bdf>, f: Path)
    requires IsDevice(sys.root, f) && |rps| == |table|
  {
    && BdfOf(sys, f) in table
    && forall i :: 0 <= i < |table| && table[i] == BdfOf(sys, f) ==> rps[i] == Expected(sys, table, f).1
  }

  lemma EntryOf(sys: System, table: seq<Bdf>, rps: seq<Bdf>, f: Path)
    requires Enumerated(sys) && Lists(sys, table) && IsDevice(sys.root, f) && |rps| == |table|
    requires BdfOf(sys, f) in table
    requires forall i :: 0 <= i < |table| ==> Answered(sys, table, table[i], rps[i])
    ensures HasRootPort(sys, table, rps, f)
  {
    forall i | 0 <= i < |table| && table[i] == BdfOf(sys, f) ensures rps[i] == Expected(sys, table, f).1 {
      var status :| Answers(sys, table, table[i], status, rps[i]);
      AnswerIsRootPort(sys, table, f, status, rps[i]);
    }
  }

  /** BDFs and expectations are told by the tree, not by the registers. */
  lemma SameBdfs(sys: System, sys': System, table: seq<Bdf>, f: Path)
    requires sys' == sys.(regs := sys'.regs) && IsDevice(sys.root, f)
    ensures BdfOf(sys', f) == BdfOf(sys, f) && Expected(sys', table, f) == Expected(sys, table, f)
  {
  }
}
