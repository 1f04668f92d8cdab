/** The order in which PCIe functions are visited: the odometer over all ECAM regions
    and the device table built in that order. */
module BdfTraversal {

  import opened PciAddress
  import opened Wrappers

  /** One ECAM region: a segment and its bus range. */
  datatype Ecam = Ecam(seg: nat, first: nat, last: nat)

  /** Regions are nonempty and within eight-bit numbers. */
  ghost predicate EcamsOk(es: seq<Ecam>) {
    forall i :: 0 <= i < |es| ==> es[i].seg < 256 && es[i].first <= es[i].last < 256
  }

  ghost predicate OnePerSegment(es: seq<Ecam>) {
    forall i, j :: 0 <= i < j < |es| ==> es[i].seg != es[j].seg
  }

  /** A position of the odometer. */
  datatype Pos = Pos(e: nat, bus: nat, dev: nat, func: nat)

  ghost predicate Valid(es: seq<Ecam>, p: Pos) {
    p.e < |es| && es[p.e].first <= p.bus <= es[p.e].last && p.dev < MAX_DEV && p.func < MAX_FUNC
  }

  lemma PositionsInNumbers(es: seq<Ecam>, p: Pos)
    ensures Valid(es, p) <==>
            p.e < |es| && es[p.e].first <= p.bus && p.bus <= es[p.e].last && p.dev < 32 && p.func < 8
  {
  }

  function BdfAt(es: seq<Ecam>, p: Pos): Bdf
    requires p.e < |es|
  {
    Bdf(es[p.e].seg, p.bus, p.dev, p.func)
  }

  // ----- ranks -----

  /** Positions in the first e regions. */
  ghost function Before(es: seq<Ecam>, e: nat): nat
    requires e <= |es| && EcamsOk(es)
  {
    if e == 0 then 0 else Before(es, e - 1) + (es[e - 1].last - es[e - 1].first + 1) * 256
  }

  ghost function Rank(es: seq<Ecam>, p: Pos): nat
    requires EcamsOk(es) && Valid(es, p)
  {
    Before(es, p.e) + (p.bus - es[p.e].first) * 256 + p.dev * 8 + p.func
  }

  lemma {:induction false} BeforeGrows(es: seq<Ecam>, d: nat, e: nat)
    requires EcamsOk(es) && d < e <= |es|
    ensures Before(es, d) + (es[d].last - es[d].first + 1) * 256 <= Before(es, e)
    decreases e
  {
    if d < e - 1 { BeforeGrows(es, d, e - 1); }
  }

  ghost predicate LexLess(p: Pos, q: Pos) {
    if p.e != q.e then p.e < q.e
    else if p.bus != q.bus then p.bus < q.bus
    else if p.dev != q.dev then p.dev < q.dev
    else p.func < q.func
  }

  /** Rank order is lexicographic order, so ranks tell positions apart. */
  lemma RankIsLex(es: seq<Ecam>, p: Pos, q: Pos)
    requires EcamsOk(es) && Valid(es, p) && Valid(es, q)
    ensures Rank(es, p) < Rank(es, q) <==> LexLess(p, q)
    ensures Rank(es, p) == Rank(es, q) <==> p == q
    ensures Rank(es, p) < Before(es, |es|)
  {
    if p.e < q.e { BeforeGrows(es, p.e, q.e); }
    if q.e < p.e { BeforeGrows(es, q.e, p.e); }
    BeforeGrows(es, p.e, |es|);
  }

  // ----- the odometer -----

  datatype Next = End | At(p: Pos)

  ghost function Succ(es: seq<Ecam>, p: Pos): Next
    requires Valid(es, p)
  {
    if p.func < MAX_FUNC - 1 then At(p.(func := p.func + 1))
    else if p.dev < MAX_DEV - 1 then At(p.(dev := p.dev + 1, func := 0))
    else if p.bus < es[p.e].last then At(Pos(p.e, p.bus + 1, 0, 0))
    else if p.e + 1 < |es| then At(Pos(p.e + 1, es[p.e + 1].first, 0, 0))
    else End
  }

  /** The odometer moves to the next rank, and stops at the last one only. */
  lemma SuccIsNextRank(es: seq<Ecam>, p: Pos)
    requires EcamsOk(es) && Valid(es, p)
    ensures match Succ(es, p)
            case At(q) => Valid(es, q) && Rank(es, q) == Rank(es, p) + 1
            case End => Rank(es, p) + 1 == Before(es, |es|)
  {
  }

  /** k steps from the first position. */
  ghost function Nth(es: seq<Ecam>, k: nat): (p: Pos)
    requires EcamsOk(es) && k < Before(es, |es|)
    ensures Valid(es, p) && Rank(es, p) == k
  {
    if k == 0 then
      assert |es| > 0;
      Pos(0, es[0].first, 0, 0)
    else
      SuccIsNextRank(es, Nth(es, k - 1));
      Succ(es, Nth(es, k - 1)).p
  }

  lemma NthOfRank(es: seq<Ecam>, p: Pos, k: nat)
    requires EcamsOk(es) && Valid(es, p) && k == Rank(es, p) && k < Before(es, |es|)
    ensures Nth(es, k) == p
  {
    RankIsLex(es, Nth(es, k), p);
  }

  /** Iterating the odometer from the first position visits every position exactly once,
      in lexicographic order. */
  lemma TraversalIsComplete(es: seq<Ecam>, p: Pos, k: nat)
    requires EcamsOk(es) && Valid(es, p) && k < Before(es, |es|)
    ensures Rank(es, p) < Before(es, |es|) && Nth(es, Rank(es, p)) == p
    ensures Nth(es, k) == p <==> k == Rank(es, p)
    ensures LexLess(Nth(es, k), p) <==> k < Rank(es, p)
  {
    RankIsLex(es, p, p);
    RankIsLex(es, Nth(es, Rank(es, p)), p);
    RankIsLex(es, Nth(es, k), p);
  }

  // ----- the step as the code computes it -----

  /** Index of the last of the first n regions with the segment, or -1. */
  function FindEcam(es: seq<Ecam>, seg: nat, n: nat): (e: int)
    requires n <= |es|
    ensures -1 <= e < n && (e >= 0 ==> es[e].seg == seg)
    ensures forall i :: e < i < n ==> es[i].seg != seg
  {
    if n == 0 then -1 else if es[n - 1].seg == seg then n - 1 else FindEcam(es, seg, n - 1)
  }

  /** The packed BDF after b, of which e is the region; 0 after the last. */
  function PackedAfter(es: seq<Ecam>, e: nat, b: Bdf): nat
    requires e < |es|
  {
    if b.func < MAX_FUNC - 1 then Pack(b.(func := b.func + 1))
    else if b.dev < MAX_DEV - 1 then Pack(b.(dev := b.dev + 1, func := 0))
    else if b.bus < es[e].last then Pack(Bdf(b.seg, b.bus + 1, 0, 0))
    else if e + 1 < |es| then Pack(Bdf(es[e + 1].seg, es[e + 1].first, 0, 0))
    else 0
  }

  /** val_pcie_increment_bdf as a function of the packed value. */
  function NextPacked(es: seq<Ecam>, x: nat): nat {
    var e := FindEcam(es, Unpack(x).seg, |es|);
    if e < 0 then 0 else PackedAfter(es, e, Unpack(x))
  }

  method IncrementBdf(es: seq<Ecam>, bdf: nat) returns (r: nat)
    ensures r == NextPacked(es, bdf)
  {
    var seg, bus, dev, func := Unpack(bdf).seg, Unpack(bdf).bus, Unpack(bdf).dev, Unpack(bdf).func;
    var cnt := |es|;
    while cnt > 0 && es[cnt - 1].seg != seg
      invariant 0 <= cnt <= |es| && forall i :: cnt <= i < |es| ==> es[i].seg != seg
    {
      cnt := cnt - 1;
    }
    if cnt == 0 { return 0; }
    var index := cnt - 1;
    if func < MAX_FUNC - 1 {
      func := func + 1;
    } else {
      func := 0;
      if dev < MAX_DEV - 1 {
        dev := dev + 1;
      } else {
        dev := 0;
        if bus < es[index].last {
          bus := bus + 1;
        } else if index + 1 < |es| {
          bus, seg := es[index + 1].first, es[index + 1].seg;
        } else {
          return 0;
        }
      }
    }
    return Pack(Bdf(seg, bus, dev, func));
  }

  ghost function PackedAt(es: seq<Ecam>, p: Pos): nat
    requires p.e < |es|
  {
    Pack(BdfAt(es, p))
  }

  /** On the packed form of a position the code takes the odometer's step. */
  lemma NextPackedIsSucc(es: seq<Ecam>, p: Pos)
    requires EcamsOk(es) && OnePerSegment(es) && Valid(es, p)
    ensures match Succ(es, p)
            case At(q) => q.e < |es| && NextPacked(es, PackedAt(es, p)) == PackedAt(es, q)
            case End => NextPacked(es, PackedAt(es, p)) == 0
  {
    UnpackPack(BdfAt(es, p));
    var e := FindEcam(es, es[p.e].seg, |es|);
    assert e == p.e;
  }

  // ----- iterating the code's own step -----

  /** The k-th value when val_pcie_increment_bdf is iterated from the first BDF. */
  ghost function Iterated(es: seq<Ecam>, k: nat): nat
    requires |es| > 0
  {
    if k == 0 then PackedAt(es, Pos(0, es[0].first, 0, 0)) else NextPacked(es, Iterated(es, k - 1))
  }

  /** The k-th value is the k-th position's BDF, and the value after the last position is 0. */
  lemma {:induction false} IteratedIsNth(es: seq<Ecam>, k: nat)
    requires EcamsOk(es) && OnePerSegment(es) && |es| > 0 && k <= Before(es, |es|)
    ensures Iterated(es, k) == if k < Before(es, |es|) then PackedAt(es, Nth(es, k)) else 0
  {
    BeforeGrows(es, 0, |es|);
    if k > 0 {
      IteratedIsNth(es, k - 1);
      PackedStep(es, k, Iterated(es, k - 1));
    }
  }

  lemma PackedStep(es: seq<Ecam>, k: nat, x: nat)
    requires EcamsOk(es) && OnePerSegment(es) && 0 < k <= Before(es, |es|)
    requires x == PackedAt(es, Nth(es, k - 1))
    ensures NextPacked(es, x) == if k < Before(es, |es|) then PackedAt(es, Nth(es, k)) else 0
  {
    NthStep(es, k);
    NextPackedIsSucc(es, Nth(es, k - 1));
  }

  lemma NthStep(es: seq<Ecam>, k: nat)
    requires EcamsOk(es) && 0 < k <= Before(es, |es|)
    ensures Succ(es, Nth(es, k - 1)) == if k < Before(es, |es|) then At(Nth(es, k)) else End
  {
    var p := Nth(es, k - 1);
    SuccIsNextRank(es, p);
    if Succ(es, p).At? { RankIsLex(es, Succ(es, p).p, p); }
  }

  /** A 0 is returned while positions are still to come. */
  ghost predicate CutShort(es: seq<Ecam>)
    requires EcamsOk(es) && |es| > 0
  {
    exists k :: 1 <= k < Before(es, |es|) && Iterated(es, k) == 0
  }

  /** A region other than the first that starts at segment 0, bus 0. */
  ghost predicate LaterZero(es: seq<Ecam>) {
    exists e :: 1 <= e < |es| && es[e].seg == 0 && es[e].first == 0
  }

  /** The iteration is cut short exactly when a later region starts at segment 0, bus 0:
      the first function there packs to 0, which callers take for the end. */
  lemma StopsExactly(es: seq<Ecam>)
    requires EcamsOk(es) && OnePerSegment(es) && |es| > 0
    ensures CutShort(es) <==> LaterZero(es)
  {
    if CutShort(es) {
      var k :| 1 <= k < Before(es, |es|) && Iterated(es, k) == 0;
      IteratedIsNth(es, k);
      ZeroStartsRegion(es, Nth(es, k));
    }
    if LaterZero(es) {
      var e :| 1 <= e < |es| && es[e].seg == 0 && es[e].first == 0;
      CutAt(es, e);
    }
  }

  lemma CutAt(es: seq<Ecam>, e: nat)
    requires EcamsOk(es) && OnePerSegment(es) && 1 <= e < |es| && es[e].seg == 0 && es[e].first == 0
    ensures 1 <= Before(es, e) < Before(es, |es|) && Iterated(es, Before(es, e)) == 0
  {
    RegionStart(es, e);
    IteratedIsNth(es, Before(es, e));
  }

  lemma RegionStart(es: seq<Ecam>, e: nat)
    requires EcamsOk(es) && 1 <= e < |es| && es[e].seg == 0 && es[e].first == 0
    ensures 1 <= Before(es, e) < Before(es, |es|) && PackedAt(es, Nth(es, Before(es, e))) == 0
  {
    BeforeGrows(es, 0, e);
    BeforeGrows(es, e, |es|);
    NthOfRank(es, Pos(e, 0, 0, 0), Before(es, e));
  }

  lemma ZeroStartsRegion(es: seq<Ecam>, p: Pos)
    requires EcamsOk(es) && Valid(es, p)
    ensures PackedAt(es, p) == 0 && Rank(es, p) > 0 ==> p.e >= 1 && es[p.e].seg == 0 && es[p.e].first == 0
  {
  }

  /** xs are the values visited so far, none of them a returned 0, and x comes next. */
  ghost predicate Visiting(es: seq<Ecam>, xs: seq<nat>, x: nat)
    requires EcamsOk(es) && |es| > 0
  {
    1 <= |xs| <= Before(es, |es|) && x == Iterated(es, |xs|) && Visited(es, xs)
  }

  ghost predicate Visited(es: seq<Ecam>, xs: seq<nat>)
    requires |es| > 0
  {
    forall k :: 0 <= k < |xs| ==> VisitedValue(es, k, xs[k])
  }

  ghost predicate VisitedValue(es: seq<Ecam>, k: nat, x: nat)
    requires |es| > 0
  {
    x == Iterated(es, k) && (k > 0 ==> x != 0)
  }

  lemma VisitedMore(es: seq<Ecam>, xs: seq<nat>, x: nat)
    requires |es| > 0 && Visited(es, xs) && VisitedValue(es, |xs|, x)
    ensures Visited(es, xs + [x])
  {
  }

  lemma VisitingStep(es: seq<Ecam>, xs: seq<nat>, x: nat)
    requires EcamsOk(es) && OnePerSegment(es) && |es| > 0 && Visiting(es, xs, x) && x != 0
    ensures |xs| < Before(es, |es|) && Visiting(es, xs + [x], NextPacked(es, x))
  {
    NotYetEnd(es, |xs|);
    IteratedStep(es, |xs|);
    VisitedMore(es, xs, x);
  }

  lemma IteratedStep(es: seq<Ecam>, k: nat)
    requires |es| > 0
    ensures Iterated(es, k + 1) == NextPacked(es, Iterated(es, k))
  {
  }

  lemma NotYetEnd(es: seq<Ecam>, k: nat)
    requires EcamsOk(es) && OnePerSegment(es) && |es| > 0 && k <= Before(es, |es|)
    ensures Iterated(es, k) != 0 ==> k < Before(es, |es|)
  {
    if k == Before(es, |es|) { IteratedIsNth(es, k); }
  }

  lemma VisitingStart(es: seq<Ecam>, x: nat)
    requires EcamsOk(es) && |es| > 0 && x == PackedAt(es, Pos(0, es[0].first, 0, 0))
    ensures Visiting(es, [x], NextPacked(es, x))
  {
    BeforeGrows(es, 0, |es|);
    assert Iterated(es, 0) == x && Iterated(es, 1) == NextPacked(es, Iterated(es, 0));
  }

  /** The loop callers write: visit, step, stop at 0. */
  method Traverse(es: seq<Ecam>) returns (xs: seq<nat>)
    requires EcamsOk(es) && OnePerSegment(es) && |es| > 0
    ensures Visiting(es, xs, 0)
    ensures |xs| == Before(es, |es|) <==> !LaterZero(es)
  {
    var x := Pack(Bdf(es[0].seg, es[0].first, 0, 0));
    xs := [x];
    VisitingStart(es, x);
    x := IncrementBdf(es, x);
    while x != 0
      invariant Visiting(es, xs, x)
      decreases Before(es, |es|) - |xs|
    {
      VisitingStep(es, xs, x);
      xs := xs + [x];
      x := IncrementBdf(es, x);
    }
    FirstZero(es, xs);
  }

  /** The first 0 ends the traversal exactly when no later region starts at segment 0, bus 0. */
  lemma FirstZero(es: seq<Ecam>, xs: seq<nat>)
    requires EcamsOk(es) && OnePerSegment(es) && |es| > 0 && Visiting(es, xs, 0)
    ensures |xs| == Before(es, |es|) <==> !LaterZero(es)
  {
    StopsExactly(es);
    forall k | 1 <= k < |xs| ensures Iterated(es, k) != 0 {
      assert VisitedValue(es, k, xs[k]);
    }
  }

  const TWO_REGIONS: seq<Ecam> := [Ecam(1, 0, 0), Ecam(0, 0, 0)]

  /** Two regions of one bus each, segment 1 listed before segment 0: step 256 returns 0
      with half of the 512 positions to come. */
  lemma StopsHalfway()
    ensures EcamsOk(TWO_REGIONS) && OnePerSegment(TWO_REGIONS)
    ensures var half := Before(TWO_REGIONS, 1); half == 256 && Iterated(TWO_REGIONS, half) == 0
    ensures Before(TWO_REGIONS, 2) == 512
  {
    CutAt(TWO_REGIONS, 1);
  }

  // ----- the device table -----

  /** What probing a function finds. */
  datatype Probe = NoMapping | NoResponse | HostBridge | Legacy | Rejected | Device

  datatype Build = Failed | Built(table: seq<Bdf>)

  /** The BDFs of all positions, in traversal order. */
  ghost function Visits(es: seq<Ecam>): seq<Bdf>
    requires EcamsOk(es)
  {
    seq(Before(es, |es|), k requires 0 <= k < Before(es, |es|) => BdfAt(es, Nth(es, k)))
  }

  ghost predicate VisitedAt(es: seq<Ecam>, visits: seq<Bdf>, p: Pos)
    requires EcamsOk(es) && Valid(es, p)
  {
    Rank(es, p) < |visits| && visits[Rank(es, p)] == BdfAt(es, p)
  }

  ghost predicate Lists(es: seq<Ecam>, visits: seq<Bdf>)
    requires EcamsOk(es)
  {
    && |visits| == Before(es, |es|)
    && forall p {:trigger VisitedAt(es, visits, p)} :: Valid(es, p) ==> VisitedAt(es, visits, p)
  }

  lemma VisitsListAll(es: seq<Ecam>)
    requires EcamsOk(es)
    ensures Lists(es, Visits(es))
  {
    forall p | Valid(es, p) ensures VisitedAt(es, Visits(es), p) {
      RankIsLex(es, p, p);
      TraversalIsComplete(es, p, 0);
    }
  }

  /** The table after the first k visits: the BDFs of the devices among them, in order,
      unless one of them has no ECAM mapping. */
  ghost function TableAt(visits: seq<Bdf>, probe: Bdf -> Probe, k: nat): Build
    requires k <= |visits|
  {
    if k == 0 then Built([])
    else
      var b := visits[k - 1];
      match TableAt(visits, probe, k - 1)
      case Failed => Failed
      case Built(table) =>
        if probe(b).NoMapping? then Failed
        else if probe(b).Device? then Built(table + [b])
        else Built(table)
  }

  lemma {:induction false} FailureStays(visits: seq<Bdf>, probe: Bdf -> Probe, j: nat, k: nat)
    requires j <= k <= |visits| && TableAt(visits, probe, j) == Failed
    ensures TableAt(visits, probe, k) == Failed
    decreases k
  {
    if j < k { FailureStays(visits, probe, j, k - 1); }
  }

  ghost predicate Fails(visits: seq<Bdf>, probe: Bdf -> Probe) {
    TableAt(visits, probe, |visits|) == Failed
  }

  ghost predicate Scanned(visits: seq<Bdf>, probe: Bdf -> Probe, table: seq<Bdf>, k: nat) {
    k <= |visits| && TableAt(visits, probe, k) == Built(table)
  }

  /** A scan fails only at a position without mapping; empty positions and rejected functions
      are skipped. */
  lemma {:induction false} BuiltIff(visits: seq<Bdf>, probe: Bdf -> Probe, k: nat)
    requires k <= |visits|
    ensures TableAt(visits, probe, k).Built? <==> forall i :: 0 <= i < k ==> probe(visits[i]) != NoMapping
    decreases k
  {
    if k > 0 { BuiltIff(visits, probe, k - 1); }
  }

  /** Every position has a mapping. */
  ghost predicate AllMapped(es: seq<Ecam>, probe: Bdf -> Probe) {
    forall p: Pos :: Valid(es, p) ==> probe(BdfAt(es, p)) != NoMapping
  }

  lemma AllMappedIff(es: seq<Ecam>, probe: Bdf -> Probe)
    requires EcamsOk(es)
    ensures TableAt(Visits(es), probe, |Visits(es)|).Built? <==> AllMapped(es, probe)
  {
    var visits := Visits(es);
    BuiltIff(visits, probe, |visits|);
    VisitsListAll(es);
    if AllMapped(es, probe) {
      forall i | 0 <= i < |visits| ensures probe(visits[i]) != NoMapping {
        assert Valid(es, Nth(es, i)) && BdfAt(es, Nth(es, i)) == visits[i];
      }
    }
    if TableAt(visits, probe, |visits|).Built? {
      forall p: Pos | Valid(es, p) ensures probe(BdfAt(es, p)) != NoMapping {
        assert VisitedAt(es, visits, p);
      }
    }
  }

  /** The devices among the positions are exactly what a complete table holds. */
  lemma {:induction false} TableMembers(visits: seq<Bdf>, probe: Bdf -> Probe, k: nat, table: seq<Bdf>)
    requires Scanned(visits, probe, table, k)
    ensures forall b :: b in table <==> probe(b).Device? && b in visits[..k]
  {
    if k > 0 {
      var last := visits[k - 1];
      assert visits[..k] == visits[..k - 1] + [last];
      TableMembers(visits, probe, k - 1, TableAt(visits, probe, k - 1).table);
    }
  }

  /** The table is a subsequence of the visits: `at` tells where each entry was visited. */
  lemma {:induction false} TableOrder(visits: seq<Bdf>, probe: Bdf -> Probe, k: nat, table: seq<Bdf>)
    returns (at: seq<int>)
    requires Scanned(visits, probe, table, k)
    ensures |at| == |table| && forall i :: 0 <= i < |at| ==> 0 <= at[i] < k && table[i] == visits[at[i]]
    ensures forall i, j :: 0 <= i < j < |at| ==> at[i] < at[j]
  {
    if k == 0 {
      at := [];
    } else {
      var before := TableAt(visits, probe, k - 1).table;
      at := TableOrder(visits, probe, k - 1, before);
      if probe(visits[k - 1]).Device? { at := at + [k - 1]; }
    }
  }

  ghost predicate Covered(es: seq<Ecam>, b: Bdf) {
    exists p :: Valid(es, p) && BdfAt(es, p) == b
  }

  lemma VisitsCover(es: seq<Ecam>, b: Bdf)
    requires EcamsOk(es)
    ensures b in Visits(es) <==> Covered(es, b)
  {
    VisitsListAll(es);
    if p :| Valid(es, p) && BdfAt(es, p) == b {
      assert VisitedAt(es, Visits(es), p);
    }
    if b in Visits(es) {
      var k :| 0 <= k < |Visits(es)| && Visits(es)[k] == b;
      assert Valid(es, Nth(es, k)) && BdfAt(es, Nth(es, k)) == b;
    }
  }

  /** The table the suite keeps, if it has been allocated. */
  class DeviceTable {
    var table: Option<seq<Bdf>>

    constructor ()
      ensures table == None
    {
      table := None;
    }

    /** val_pcie_create_device_bdf_table: the table is the traversal filtered by the probes. An
        allocated table is kept as it is and reported as success, even one a failed call left. */
    method Create(gotMemory: bool, es: seq<Ecam>, probe: Bdf -> Probe) returns (status: int)
      requires EcamsOk(es)
      modifies this
      ensures old(table).Some? ==> status == 0 && table == old(table)
      ensures old(table).None? && !gotMemory ==> status == 1 && table == None
      ensures old(table).None? && gotMemory ==>
                && table.Some? && status in {0, 1}
                && (status == 0 <==> |es| > 0 && AllMapped(es, probe))
                && (status == 0 ==> Scanned(Visits(es), probe, table.value, |Visits(es)|))
    {
      if table.Some? { return 0; }
      if !gotMemory { return 1; }
      table := Some([]);
      if |es| == 0 { return 1; }
      VisitsListAll(es);
      var ok, scanned := ProbeAll(es, Visits(es), probe);
      table := Some(scanned);
      AllMappedIff(es, probe);
      return if ok then 0 else 1;
    }
  }

  /** Two calls in a row: after a first call that got memory but failed, the second reports
      success on the incomplete table the first one left. */
  method CreateTwice(es: seq<Ecam>, probe: Bdf -> Probe) returns (first: int, second: int, table: seq<Bdf>)
    requires EcamsOk(es)
    ensures second == 0
    ensures first == 0 <==> |es| > 0 && AllMapped(es, probe)
    ensures first == 0 ==> Scanned(Visits(es), probe, table, |Visits(es)|)
    ensures first != 0 && |es| > 0 ==> !Scanned(Visits(es), probe, table, |Visits(es)|)
  {
    AllMappedIff(es, probe);
    var d := new DeviceTable();
    first := d.Create(true, es, probe);
    second := d.Create(true, es, probe);
    table := d.table.value;
  }

  /** For instance when no function has an ECAM mapping. */
  method CreateUnmapped() returns (first: int, second: int)
    ensures first == 1 && second == 0
  {
    var es, probe := [Ecam(0, 0, 0)], (b: Bdf) => NoMapping;
    assert Valid(es, Pos(0, 0, 0, 0));
    var d := new DeviceTable();
    first := d.Create(true, es, probe);
    second := d.Create(true, es, probe);
  }

  /** The ECAM and bus loops. */
  method ProbeAll(es: seq<Ecam>, ghost visits: seq<Bdf>, probe: Bdf -> Probe) returns (ok: bool, table: seq<Bdf>)
    requires EcamsOk(es) && Lists(es, visits)
    ensures ok ==> Scanned(visits, probe, table, |visits|)
    ensures !ok ==> Fails(visits, probe)
  {
    table := [];
    var e := 0;
    ghost var k := 0;
    while e < |es|
      invariant e <= |es| && k == Before(es, e) && Scanned(visits, probe, table, k)
    {
      var bus := es[e].first;
      while bus <= es[e].last
        invariant es[e].first <= bus <= es[e].last + 1
        invariant k == Before(es, e) + (bus - es[e].first) * 256 && Scanned(visits, probe, table, k)
      {
        ok, table := ProbeBus(es, visits, probe, table, e, bus, k);
        if !ok { return; }
        k := k + 256;
        bus := bus + 1;
      }
      e := e + 1;
    }
    ok := true;
  }

  /** The device loop of one bus; `k` counts the visits before the bus. */
  method ProbeBus(es: seq<Ecam>, ghost visits: seq<Bdf>, probe: Bdf -> Probe, before: seq<Bdf>, e: nat, bus: nat,
      ghost k: nat)
    returns (ok: bool, table: seq<Bdf>)
    requires EcamsOk(es) && Lists(es, visits) && e < |es| && es[e].first <= bus <= es[e].last
    requires k == Rank(es, Pos(e, bus, 0, 0)) && Scanned(visits, probe, before, k)
    ensures ok ==> Scanned(visits, probe, table, k + 256)
    ensures !ok ==> Fails(visits, probe)
  {
    ok, table := true, before;
    var dev := 0;
    ghost var at := k;
    while dev < MAX_DEV
      invariant dev <= MAX_DEV && at == k + dev * 8 && Scanned(visits, probe, table, at)
    {
      ok, table := ProbeDevice(es, visits, probe, table, Pos(e, bus, dev, 0), at);
      if !ok { return; }
      at := at + 8;
      dev := dev + 1;
    }
    assert at == k + 256;
    ok := true;
  }

  /** The function loop of one device. */
  method ProbeDevice(es: seq<Ecam>, ghost visits: seq<Bdf>, probe: Bdf -> Probe, before: seq<Bdf>, p: Pos, ghost k: nat)
    returns (ok: bool, table: seq<Bdf>)
    requires EcamsOk(es) && Lists(es, visits) && Valid(es, p) && p.func == 0
    requires k == Rank(es, p) && Scanned(visits, probe, before, k)
    ensures ok ==> Scanned(visits, probe, table, k + 8)
    ensures !ok ==> Fails(visits, probe)
  {
    ok, table := true, before;
    var func := 0;
    ghost var at := k;
    while func < MAX_FUNC
      invariant func <= MAX_FUNC && at == k + func && Scanned(visits, probe, table, at)
    {
      assert VisitedAt(es, visits, p.(func := func));
      ok, table := ProbeFunction(visits, probe, table, BdfAt(es, p.(func := func)), at);
      if !ok { return; }
      at := at + 1;
      func := func + 1;
    }
    assert at == k + 8;
    ok := true;
  }

  /** One probe; a device is appended to the table. */
  method ProbeFunction(ghost visits: seq<Bdf>, probe: Bdf -> Probe, before: seq<Bdf>, b: Bdf, ghost k: nat)
    returns (ok: bool, table: seq<Bdf>)
    requires k < |visits| && visits[k] == b && Scanned(visits, probe, before, k)
    ensures ok ==> Scanned(visits, probe, table, k + 1)
    ensures !ok ==> Fails(visits, probe)
  {
    var reply := probe(b);
    table := before;
    ok := !reply.NoMapping?;
    if !ok { FailureStays(visits, probe, k + 1, |visits|); }
    if reply.Device? { table := table + [b]; }
  }
}
