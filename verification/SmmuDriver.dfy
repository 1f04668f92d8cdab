/** The map operation running against the SMMU as a second agent, which consumes
    commands in order and may fetch and cache any table entry at any moment. */
module SmmuDriver {
  import opened Bits
  import opened CommandRing
  import opened StreamTable

  const POLL_TIMEOUT: nat := 0x10_0000

  // ----- the SMMU -----

  datatype Fetched = Invalid | Valid(ste: Ste)

  /** Ring and table memory, the SMMU's two configuration caches (entries and
      first-level descriptors), and the commands it has executed. */
  datatype Hw = Hw(ring: Ring, tab: Memory, stes: map<nat, Fetched>, l1s: map<nat, bool>, executed: seq<Cmd>)

  predicate HwOk(h: Hw) { WellFormed(h.ring) && TableOk(h.tab) }

  /** A table walk that found `published` in the first level. */
  function Walk(t: Memory, sid: nat, published: bool): Fetched
    requires TableOk(t) && sid < Sids(t)
  {
    if published && Populated(t, sid) then Valid(Entry(t, sid)) else Invalid
  }

  function Published(t: Memory, sid: nat): bool
    requires TableOk(t) && sid < Sids(t)
  {
    t.Linear? || t.published[sid / GROUP]
  }

  datatype DeviceStep = ConsumeCommand | FetchDescriptor(group: nat) | FetchEntry(sid: nat, fromCache: bool)

  function Execute(h: Hw, c: Cmd): Hw {
    var h' := h.(executed := h.executed + [c]);
    match c
    case CfgiSte(sid) => h'.(stes := h.stes - {sid})
    case CfgiAll => h'.(stes := map[], l1s := map[])
    case _ => h'
  }

  function Device(h: Hw, s: DeviceStep): Hw
    requires HwOk(h)
  {
    match s
    case ConsumeCommand =>
      if Occupancy(h.ring) == 0 then h
      else
        IndexFacts(h.ring.n, h.ring.cons);
        Execute(h.(ring := Consume(h.ring)), h.ring.slots[Slot(h.ring.n, h.ring.cons)])
    case FetchDescriptor(g) =>
      if h.tab.TwoLevel? && g < |h.tab.published| then h.(l1s := h.l1s[g := h.tab.published[g]]) else h
    case FetchEntry(sid, fromCache) =>
      if sid >= Sids(h.tab) then h
      else
        var cached := h.tab.TwoLevel? && fromCache && sid / GROUP in h.l1s;
        var pub := if cached then h.l1s[sid / GROUP] else Published(h.tab, sid);
        h.(stes := h.stes[sid := Walk(h.tab, sid, pub)])
  }

  /** No cached configuration differs from the tables in memory. */
  ghost predicate Coherent(h: Hw)
    requires HwOk(h)
  {
    && (forall s :: s in h.stes ==> s < Sids(h.tab) && h.stes[s] == Walk(h.tab, s, Published(h.tab, s)))
    && (forall g :: g in h.l1s ==> h.tab.TwoLevel? && g < |h.tab.published| && h.l1s[g] == h.tab.published[g])
  }

  /** Coherent now, or about to be: an invalidation of everything is still in the ring. */
  ghost predicate Settling(h: Hw)
    requires HwOk(h)
  {
    Coherent(h) || CfgiAll in Pending(h.ring)
  }

  /** Every command issued so far, in order: executed ones, then pending ones. */
  ghost function Issued(h: Hw): seq<Cmd>
    requires HwOk(h)
  {
    h.executed + Pending(h.ring)
  }

  /** What the SMMU can and cannot do on its own. */
  ghost predicate Progress(h: Hw, h': Hw)
    requires HwOk(h)
  {
    && HwOk(h') && h'.tab == h.tab
    && h'.ring.n == h.ring.n && h'.ring.slots == h.ring.slots && h'.ring.prod == h.ring.prod
    && Issued(h') == Issued(h) && Occupancy(h'.ring) <= Occupancy(h.ring)
    && (Settling(h) ==> Settling(h'))
  }

  lemma DeviceProgress(h: Hw, s: DeviceStep)
    requires HwOk(h)
    ensures Progress(h, Device(h, s))
  {
    match s
    case ConsumeCommand =>
      if Occupancy(h.ring) > 0 { ConsumeProgress(h); }
    case FetchDescriptor(_) =>
    case FetchEntry(sid, _) =>
  }

  lemma ConsumeProgress(h: Hw)
    requires HwOk(h) && Occupancy(h.ring) > 0
    ensures Progress(h, Device(h, ConsumeCommand))
  {
    ConsumeTakesFirst(h.ring);
    IndexFacts(h.ring.n, h.ring.cons);
    var c := h.ring.slots[Slot(h.ring.n, h.ring.cons)];
    var q := Consume(h.ring);
    if Settling(h) { ExecuteSettles(h, c, Pending(q)); }
    Executed(h, c, q);
  }

  /** What one consumed command does to the state. */
  lemma Executed(h: Hw, c: Cmd, q: Ring)
    requires HwOk(h) && WellFormed(q) && Pending(h.ring) == [c] + Pending(q)
    ensures var h' := Execute(h.(ring := q), c);
            && HwOk(h') && h'.tab == h.tab && h'.ring == q && Issued(h') == Issued(h)
            && h'.stes == Execute(h, c).stes && h'.l1s == Execute(h, c).l1s
  {
    assert h.executed + ([c] + Pending(q)) == h.executed + [c] + Pending(q);
  }

  /** Executing the oldest pending command keeps the caches settling. */
  lemma ExecuteSettles(h: Hw, c: Cmd, rest: seq<Cmd>)
    requires HwOk(h) && Pending(h.ring) == [c] + rest
    requires Settling(h)
    ensures HwOk(Execute(h, c)) && (Coherent(Execute(h, c)) || CfgiAll in rest)
  {
    if !Coherent(h) && c != CfgiAll {
      assert CfgiAll in rest;
    }
  }

  function RunDevice(h: Hw, steps: seq<DeviceStep>): (h': Hw)
    requires HwOk(h)
    ensures Progress(h, h')
    decreases |steps|
  {
    FullAndEmpty(h.ring);
    if steps == [] then h
    else DeviceProgress(h, steps[0]); RunDevice(Device(h, steps[0]), steps[1..])
  }

  // ----- the driver -----

  /** A store by the driver to one word of an entry. */
  function SetWord(t: Memory, sid: nat, w: nat, v: Word): Memory
    requires TableOk(t) && Populated(t, sid) && w < STE_WORDS
  {
    SetEntry(t, sid, Entry(t, sid)[w := v])
  }

  class Smmu {
    var hw: Hw
    var masters: seq<Master>
    const features: Features
    const hyp: bool
    /** The software copy of the ring indices, which the driver never updates. */
    const softProd: nat
    const softCons: nat
    /** The SMMU takes no step of its own. */
    const quiet: bool

    constructor (hw: Hw, features: Features, hyp: bool, quiet: bool)
      requires HwOk(hw)
      ensures this.hw == hw && this.masters == [] && this.features == features && this.hyp == hyp
      ensures softProd == 0 && softCons == 0 && this.quiet == quiet
    {
      this.hw, this.masters, this.features, this.hyp, this.quiet := hw, [], features, hyp, quiet;
      softProd, softCons := 0, 0;
    }

    /** Any number of SMMU steps, in any order. */
    method Interfere()
      requires HwOk(hw)
      modifies this`hw
      ensures Progress(old(hw), hw) && (quiet ==> hw == old(hw))
    {
      var steps: seq<DeviceStep> := *;
      if quiet { steps := []; }
      hw := RunDevice(hw, steps);
    }

    method WriteCmd(c: Cmd) returns (status: int)
      requires HwOk(hw)
      modifies this`hw
      ensures HwOk(hw) && hw.tab == old(hw).tab && hw.ring.n == old(hw).ring.n
      ensures status == if QueueFull(hw.ring.n, softProd, softCons) then -1 else 0
      ensures status == 0 && Occupancy(old(hw).ring) < Pow2(hw.ring.n) ==>
                && Issued(hw) == Issued(old(hw)) + [c]
                && Occupancy(hw.ring) <= Occupancy(old(hw).ring) + 1
                && (c == CfgiAll || Settling(old(hw)) ==> Settling(hw))
    {
      var timeout := POLL_TIMEOUT;
      ghost var n := hw.ring.n;
      while QueueFull(hw.ring.n, softProd, softCons) && timeout > 0
        invariant hw == old(hw)
        invariant timeout == 0 ==> QueueFull(hw.ring.n, softProd, softCons)
      {
        timeout := timeout - 1;
      }
      if timeout == 0 { return -1; }
      Interfere();
      var prod := hw.ring.prod;
      IndexFacts(n, prod);
      Interfere();
      ghost var before := hw;
      hw := hw.(ring := hw.ring.(slots := hw.ring.slots[IndexBits(hw.ring.n, prod) := c]));
      FillStep(before, c, hw);
      Interfere();
      ghost var filled := hw;
      hw := hw.(ring := hw.ring.(prod := IncProd(hw.ring.n, prod)));
      PublishStep(filled, c, hw);
      Interfere();
      return 0;
    }

    /** Waits for the consumer register to catch up; the SMMU runs between the reads. */
    method Poll() returns (drained: bool)
      requires HwOk(hw)
      modifies this`hw
      ensures Progress(old(hw), hw)
      ensures drained ==> Occupancy(hw.ring) == 0
    {
      var timeout := POLL_TIMEOUT;
      Interfere();
      var prod, n := hw.ring.prod, hw.ring.n;
      Interfere();
      var cons := hw.ring.cons;
      ghost var at := hw.ring;
      while timeout > 0
        invariant Progress(old(hw), hw) && hw.ring.prod == prod && hw.ring.n == n
        invariant WellFormed(at) && at.n == n && at.prod == prod && at.cons == cons
        invariant Occupancy(hw.ring) <= Occupancy(at)
      {
        Interfere();
        FullAndEmpty(at);
        if QueueEmpty(n, prod, cons) { return true; }
        cons := hw.ring.cons;
        at := hw.ring;
        timeout := timeout - 1;
      }
      return false;
    }

    /** The ring is empty and large enough for one batch. */
    ghost predicate Idle()
      reads this
    {
      HwOk(hw) && hw.ring.n >= 2 && Occupancy(hw.ring) == 0
    }

    /** smmu_tlbi_cached_ste and, with sync false, smmu_tlbi_prefetch_cfg (which issues CFGI_STE too). */
    method InvalidateEntry(sid: nat, sync: bool) returns (drained: bool)
      requires HwOk(hw) && softProd == softCons
      modifies this`hw
      ensures HwOk(hw) && hw.tab == old(hw).tab && hw.ring.n == old(hw).ring.n
      ensures old(Idle()) && drained ==>
                Idle() && hw.executed == old(hw).executed + if sync then [CfgiSte(sid), Sync] else [CfgiSte(sid)]
    {
      if hw.ring.n >= 2 { FourSlots(hw.ring.n); }
      DrainedIssued(hw);
      var _ := WriteCmd(CfgiSte(sid));
      if sync {
        var _ := WriteCmd(Sync);
        assert hw.ring.n >= 2 && old(Idle()) ==> Issued(hw) == old(hw).executed + [CfgiSte(sid), Sync];
      }
      drained := Poll();
      DrainedIssued(hw);
    }

    /** smmu_tlbi_cfgi: invalidate all configuration, and wait. */
    method InvalidateAll() returns (drained: bool)
      requires HwOk(hw) && softProd == softCons
      modifies this`hw
      ensures HwOk(hw) && hw.tab == old(hw).tab && hw.ring.n == old(hw).ring.n
      ensures old(Idle()) && drained ==>
                Idle() && Coherent(hw) && hw.executed == old(hw).executed + FlushBatch(hyp)
    {
      if hw.ring.n >= 2 { FourSlots(hw.ring.n); }
      DrainedIssued(hw);
      var _ := WriteCmd(CfgiAll);
      if hyp {
        var _ := WriteCmd(TlbiEl2All);
      }
      assert old(Idle()) ==> Issued(hw) == old(hw).executed + ([CfgiAll] + if hyp then [TlbiEl2All] else []);
      var _ := WriteCmd(TlbiNsnhAll);
      var _ := WriteCmd(Sync);
      assert old(Idle()) ==> Issued(hw) == old(hw).executed + FlushBatch(hyp);
      drained := Poll();
      DrainedIssued(hw);
    }

    // ----- table and list updates -----

    /** Ring, history and caches only move by the SMMU's own steps. */
    ghost predicate RingKept(h: Hw)
      requires HwOk(h)
      reads this
    {
      && HwOk(hw) && hw.ring.n == h.ring.n && Issued(hw) == Issued(h)
      && Occupancy(hw.ring) <= Occupancy(h.ring)
    }

    /** Stores one word of an entry; `e` is the entry stored so far on top of table `t`. */
    method StoreWord(sid: nat, w: nat, v: Word, ghost t: Memory, ghost e: Ste)
      requires HwOk(hw) && TableOk(t) && Populated(t, sid) && |e| == STE_WORDS && w < STE_WORDS
      requires hw.tab == SetEntry(t, sid, e)
      modifies this`hw
      ensures RingKept(old(hw)) && hw.tab == SetEntry(t, sid, e[w := v])
      ensures quiet ==> hw == old(hw).(tab := hw.tab)
    {
      Interfere();
      SetTwice(t, sid, e, w, v);
      hw := hw.(tab := SetWord(hw.tab, sid, w, v));
      SetEntryFrame(t, sid, e[w := v]);
    }

    /** Stores the words of an entry in the given order, the SMMU running in between. */
    method StoreWords(sid: nat, stores: Stores)
      requires HwOk(hw) && Populated(hw.tab, sid)
      modifies this`hw
      ensures RingKept(old(hw)) && hw.tab == SetEntry(old(hw).tab, sid, Stored(Entry(old(hw).tab, sid), stores))
      ensures quiet ==> hw == old(hw).(tab := hw.tab)
    {
      ghost var t, e := hw.tab, Entry(hw.tab, sid);
      SetSame(t, sid);
      var rest := stores;
      while rest.Put?
        invariant RingKept(old(hw)) && |e| == STE_WORDS && (quiet ==> hw == old(hw).(tab := hw.tab))
        invariant hw.tab == SetEntry(t, sid, e) && Stored(e, rest) == Stored(Entry(t, sid), stores)
        decreases rest
      {
        StoreWord(sid, rest.w, rest.v, t, e);
        e := e[rest.w := rest.v];
        rest := rest.rest;
      }
    }

    /** smmu_strtab_write_ste with no master. */
    method WriteDefault(sid: nat)
      requires HwOk(hw) && Populated(hw.tab, sid)
      modifies this`hw
      ensures RingKept(old(hw)) && hw.tab == SetEntry(old(hw).tab, sid, DefaultEntry(Entry(old(hw).tab, sid)))
      ensures quiet ==> hw == old(hw).(tab := hw.tab)
    {
      StoresMakeDefault(Entry(hw.tab, sid));
      StoreWords(sid, DEFAULT_STORES);
    }

    /** The stores of smmu_strtab_write_ste for a master. */
    method StoreEntry(stage: Stage, m: Master, r: Request)
      requires HwOk(hw) && Populated(hw.tab, r.sid)
      modifies this`hw
      ensures RingKept(old(hw))
      ensures hw.tab == SetEntry(old(hw).tab, r.sid, EntryFor(stage, m, r, Entry(old(hw).tab, r.sid)))
    {
      StoresMakeEntry(stage, m, r, Entry(hw.tab, r.sid));
      StoreWords(r.sid, StoresFor(stage, m, r, Entry(hw.tab, r.sid)[1]));
    }

    /** smmu_strtab_write_ste for a master. */
    method WriteEntry(stage: Stage, m: Master, r: Request) returns (drained: bool)
      requires HwOk(hw) && Populated(hw.tab, r.sid) && softProd == softCons
      modifies this`hw
      ensures HwOk(hw) && hw.ring.n == old(hw).ring.n
      ensures hw.tab == SetEntry(old(hw).tab, r.sid, EntryFor(stage, m, r, Entry(old(hw).tab, r.sid)))
      ensures old(Idle()) && drained ==> Idle() && hw.executed == old(hw).executed + EntryCommands(stage, r.sid)
    {
      DrainedIssued(hw);
      StoreEntry(stage, m, r);
      DrainedIssued(hw);
      if stage.Bypass? { return true; }
      var first := InvalidateEntry(r.sid, true);
      var second := InvalidateEntry(r.sid, false);
      return first && second;
    }

    /** smmu_strtab_init_level2: the group is filled in before its descriptor is published. */
    method InitLevel2(sid: nat, gotMemory: bool) returns (ok: bool)
      requires HwOk(hw) && hw.tab.TwoLevel? && sid < Sids(hw.tab)
      modifies this`hw
      ensures RingKept(old(hw))
      ensures ok == (Populated(old(hw).tab, sid) || gotMemory)
      ensures hw.tab == if ok then Populate(old(hw).tab, sid) else old(hw).tab
      ensures hw.tab == old(hw).tab ==> hw == old(hw)
      ensures quiet ==> hw == old(hw).(tab := hw.tab)
    {
      var g := sid / GROUP;
      if hw.tab.groups[g] != [] { return true; }
      if !gotMemory { return false; }
      ghost var t := hw.tab;
      Interfere();
      hw := hw.(tab := hw.tab.(groups := hw.tab.groups[g := seq(GROUP, _ => ZERO_STE)]));
      assert seq(GROUP, _ => ZERO_STE) == Filling(0);
      FillGroup(g, t);
      assert Filling(GROUP) == seq(GROUP, _ => BYPASS_STE);
      Interfere();
      hw := hw.(tab := hw.tab.(published := hw.tab.published[g := true]));
      return true;
    }

    /** Every entry of the new group g of table t is set to bypass. */
    method FillGroup(g: nat, ghost t: Memory)
      requires HwOk(hw) && TableOk(t) && t.TwoLevel? && g < |t.groups|
      requires hw.tab == t.(groups := t.groups[g := Filling(0)])
      modifies this`hw
      ensures RingKept(old(hw)) && hw.tab == t.(groups := t.groups[g := Filling(GROUP)])
      ensures quiet ==> hw == old(hw).(tab := hw.tab)
    {
      var i := 0;
      while i < GROUP
        invariant i <= GROUP && RingKept(old(hw)) && (quiet ==> hw == old(hw).(tab := hw.tab))
        invariant hw.tab == t.(groups := t.groups[g := Filling(i)])
      {
        FillOne(t, g, i);
        WriteDefault(GROUP * g + i);
        i := i + 1;
      }
    }

    /** smmu_master_at: searches the list, or puts a zeroed node in front. */
    method MasterNode(sid: nat, al: Allocations) returns (i: nat)
      modifies this`masters
      ensures (masters, i) == MasterAt(old(masters), sid, al) && i <= |masters|
    {
      i := 0;
      while i < |masters|
        invariant i <= |masters| && forall j :: 0 <= j < i ==> masters[j].sid != sid
      {
        if masters[i].sid == sid { return; }
        i := i + 1;
      }
      if al.node && al.master {
        masters := [NO_MASTER] + masters;
        return 0;
      }
    }

    /** The entry is written and every cached configuration invalidated. */
    method WriteAndFlush(stage: Stage, m: Master, r: Request) returns (drained: bool)
      requires HwOk(hw) && Populated(hw.tab, r.sid) && softProd == softCons
      modifies this`hw
      ensures HwOk(hw) && hw.ring.n == old(hw).ring.n
      ensures hw.tab == SetEntry(old(hw).tab, r.sid, EntryFor(stage, m, r, Entry(old(hw).tab, r.sid)))
      ensures old(Idle()) && drained ==>
                && Idle() && Coherent(hw)
                && hw.executed == old(hw).executed + EntryCommands(stage, r.sid) + FlushBatch(hyp)
    {
      var first := WriteEntry(stage, m, r);
      var second := InvalidateAll();
      return first && second;
    }

    /** The checks and the binding that come before any table is touched. */
    method PrepareMaster(r: Request, al: Allocations) returns (i: nat, ok: bool)
      modifies this`masters
      ensures (masters, i, ok) == Prepare(old(masters), r, features, al)
      ensures ok ==> i < |masters|
    {
      i := MasterNode(r.sid, al);
      if i == |masters| { return i, false; }
      ghost var ms := masters;
      if !masters[i].bound {
        masters := masters[i := masters[i].(bound := true, sid := r.sid, ssidBits := r.ssidBits)];
      }
      assert masters == ms[i := BindMaster(ms[i], r)];
      if r.stage2 {
        ok := features.s2p;
      } else if r.bypass {
        ok := true;
      } else {
        ok := features.s1p;
      }
    }

    /** val_smmu_rlm_map on a present SMMU, with the SMMU running all the time. */
    method RlmMap(r: Request, al: Allocations) returns (status: nat, drained: bool)
      requires HwOk(hw) && softProd == softCons
      modifies this`hw, this`masters
      ensures HwOk(hw) && hw.ring.n == old(hw).ring.n
      ensures (Driver(masters, hw.tab), status) == Map(Driver(old(masters), old(hw).tab), r, features, al)
      ensures status != 0 && old(Idle()) ==> Idle() && hw.executed == old(hw).executed
      ensures status != 0 ==> hw == old(hw) || hw.tab != old(hw).tab
      ensures status != 0 && quiet ==> hw == old(hw).(tab := hw.tab)
      ensures status == 0 && drained && old(Idle()) ==>
                && Idle() && Coherent(hw)
                && hw.executed == old(hw).executed + EntryCommands(StageOf(r), r.sid) + FlushBatch(hyp)
    {
      var i, ok := PrepareMaster(r, al);
      if !ok { return 1, false; }
      if r.sid >= Sids(hw.tab) { return 1, false; }
      DrainedIssued(hw);
      if hw.tab.TwoLevel? {
        var populated := InitLevel2(r.sid, al.group);
        if !populated { return 1, false; }
      }
      DrainedIssued(hw);
      PopulateFrame(old(hw).tab, r.sid);
      status, drained := CommitEntry(r, al, i);
    }

    /** val_smmu_unmap on a linear table. */
    method RlmUnmap(sid: nat, al: Allocations) returns (status: nat, drained: bool)
      requires HwOk(hw) && softProd == softCons && hw.tab.Linear?
      modifies this`hw, this`masters
      ensures HwOk(hw) && hw.ring.n == old(hw).ring.n
      ensures Driver(masters, hw.tab) == Unmap(Driver(old(masters), old(hw).tab), sid, al)
      ensures status == 0 <==> Unmaps(Driver(old(masters), old(hw).tab), sid, al)
      ensures status != 0 ==> hw == old(hw)
      ensures status == 0 && drained && old(Idle()) ==>
                Idle() && Coherent(hw) && hw.executed == old(hw).executed + FlushBatch(hyp)
    {
      var i := MasterNode(sid, al);
      if i == |masters| || !masters[i].bound || sid >= Sids(hw.tab) { return 1, false; }
      status := 0;
      DrainedIssued(hw);
      WriteDefault(sid);
      DrainedIssued(hw);
      drained := InvalidateAll();
      masters := masters[i := NO_MASTER];
    }

    /** A session of map and linear-table unmap calls. `drained` reports that every poll of a
        call that reached them ended by its test. The log is determined by the calls, and tells
        whether the caches can be trusted afterwards. */
    method Session(calls: seq<Call>) returns (drained: bool, ghost issued: seq<Cmd>, ghost log: Log)
      requires HwOk(hw) && softProd == softCons
      requires forall k :: 0 <= k < |calls| && calls[k].UnmapCall? ==> hw.tab.Linear?
      modifies this`hw, this`masters
      ensures HwOk(hw)
      ensures Logs(log, Driver(old(masters), old(hw).tab), calls, |calls|, features)
      ensures log.states[|calls|] == Driver(masters, hw.tab)
      ensures drained && old(Idle()) ==> Idle() && hw.executed == old(hw).executed + issued
      ensures Settled(log, calls, |calls|, features) ==>
                (drained && old(Idle()) && Coherent(old(hw)) ==> Coherent(hw))
    {
      ghost var d := Driver(masters, hw.tab);
      drained, issued, log := true, [], Log([d], []);
      assert hw.executed == old(hw).executed + [];
      for k := 0 to |calls|
        invariant HwOk(hw) && hw.tab.Linear? == old(hw).tab.Linear?
        invariant Logs(log, d, calls, k, features) && log.states[k] == Driver(masters, hw.tab)
        invariant drained && old(Idle()) ==> Idle() && hw.executed == old(hw).executed + issued
        invariant Settled(log, calls, k, features) ==>
                    (drained && old(Idle()) && Coherent(old(hw)) ==> Coherent(hw))
      {
        var status, ok;
        ghost var cmds;
        ghost var before := log;
        status, ok, cmds, log := Do(calls, k, d, log);
        if status != 0 && Settled(log, calls, k + 1, features) {
          SettledStep(before, d, calls, k, features, Driver(masters, hw.tab), status);
        }
        assert old(hw).executed + issued + cmds == old(hw).executed + (issued + cmds);
        issued := issued + cmds;
        drained := drained && (status != 0 || ok);
      }
    }

    /** Call k of a session. */
    method Do(calls: seq<Call>, k: nat, ghost d: Driver, ghost log0: Log)
      returns (status: nat, drained: bool, ghost cmds: seq<Cmd>, ghost log: Log)
      requires HwOk(hw) && softProd == softCons && k < |calls| && (calls[k].UnmapCall? ==> hw.tab.Linear?)
      requires Logs(log0, d, calls, k, features) && log0.states[k] == Driver(masters, hw.tab)
      modifies this`hw, this`masters
      ensures HwOk(hw) && hw.tab.Linear? == old(hw).tab.Linear?
      ensures log == Extended(log0, Driver(masters, hw.tab), status) && Logs(log, d, calls, k + 1, features)
      ensures (status == 0 ==> drained) && old(Idle()) ==> Idle() && hw.executed == old(hw).executed + cmds
      ensures status == 0 && drained && old(Idle()) ==> Coherent(hw)
      ensures status != 0 ==> hw == old(hw) || LeavesAt(log0, calls, k, features)
    {
      CallKeepsTable(log0.states[k], calls[k], features);
      match calls[k] {
        case MapCall(r, al) => status, drained, cmds := DoMap(r, al);
        case UnmapCall(sid, al) => status, drained, cmds := DoUnmap(sid, al);
      }
      log := Extended(log0, Driver(masters, hw.tab), status);
      LogsMore(log0, d, calls, k, features, Driver(masters, hw.tab), status);
    }

    method DoMap(r: Request, al: Allocations) returns (status: nat, drained: bool, ghost cmds: seq<Cmd>)
      requires HwOk(hw) && softProd == softCons
      modifies this`hw, this`masters
      ensures HwOk(hw)
      ensures (Driver(masters, hw.tab), status) == Map(Driver(old(masters), old(hw).tab), r, features, al)
      ensures (status == 0 ==> drained) && old(Idle()) ==> Idle() && hw.executed == old(hw).executed + cmds
      ensures status == 0 && drained && old(Idle()) ==> Coherent(hw)
      ensures status != 0 ==> hw == old(hw) || LeavesGroup(Driver(old(masters), old(hw).tab), r, features, al)
    {
      LeavesGroupIff(Driver(masters, hw.tab), r, features, al);
      status, drained := RlmMap(r, al);
      cmds := if status == 0 then EntryCommands(StageOf(r), r.sid) + FlushBatch(hyp) else [];
    }

    method DoUnmap(sid: nat, al: Allocations) returns (status: nat, drained: bool, ghost cmds: seq<Cmd>)
      requires HwOk(hw) && softProd == softCons && hw.tab.Linear?
      modifies this`hw, this`masters
      ensures HwOk(hw)
      ensures (Driver(masters, hw.tab), status) ==
              CallResult(Driver(old(masters), old(hw).tab), UnmapCall(sid, al), features)
      ensures (status == 0 ==> drained) && old(Idle()) ==> Idle() && hw.executed == old(hw).executed + cmds
      ensures status == 0 && drained && old(Idle()) ==> Coherent(hw)
      ensures status != 0 ==> hw == old(hw)
    {
      status, drained := RlmUnmap(sid, al);
      cmds := if status == 0 then FlushBatch(hyp) else [];
      status := if status == 0 then 0 else 1;
    }

    /** What follows once the entry's group exists. */
    method CommitEntry(r: Request, al: Allocations, i: nat) returns (status: nat, drained: bool)
      requires HwOk(hw) && softProd == softCons && Populated(hw.tab, r.sid) && i < |masters|
      modifies this`hw, this`masters
      ensures HwOk(hw) && hw.ring.n == old(hw).ring.n
      ensures (Driver(masters, hw.tab), status) == Commit(old(masters), i, old(hw).tab, r, features, al)
      ensures status != 0 ==> hw == old(hw)
      ensures status == 0 && drained && old(Idle()) ==>
                && Idle() && Coherent(hw)
                && hw.executed == old(hw).executed + EntryCommands(StageOf(r), r.sid) + FlushBatch(hyp)
    {
      assert masters[i := masters[i]] == masters;
      if StageOf(r).S1? {
        var (m, written) := ContextTable(masters[i], r, features, al);
        masters := masters[i := m];
        if !written { return 1, false; }
      }
      drained := WriteAndFlush(StageOf(r), masters[i], r);
      return 0, drained;
    }
  }

  /** A list of stores, in program order. */
  datatype Stores = Done | Put(w: WordIndex, v: Word, rest: Stores)

  type WordIndex = w: int | 0 <= w < STE_WORDS

  /** An entry after the stores. */
  function Stored(e: Ste, s: Stores): (r: Ste)
    requires |e| == STE_WORDS
    ensures |r| == STE_WORDS
    decreases s
  {
    match s
    case Done => e
    case Put(w, v, rest) => Stored(e[w := v], rest)
  }

  /** The stores for a stage: word 0, with the valid bit, goes last except for bypass;
      stage 2 keeps the old bits of word 1. */
  function StoresFor(stage: Stage, m: Master, r: Request, w1: Word): Stores {
    match stage
    case Bypass => Put(0, Word0(stage, m), Put(1, Word1(stage, w1), Put(2, Word2(stage, r, 0), Done)))
    case S2 =>
      Put(1, Word1(stage, w1), Put(2, Word2(stage, r, 0), Put(3, Word3(stage, r, 0), Put(0, Word0(stage, m), Done))))
    case S1 => Put(1, Word1(stage, w1), Put(0, Word0(stage, m), Done))
  }

  const DEFAULT_STORES: Stores := Put(0, BYPASS_W0, Put(1, BYPASS_W1, Put(2, 0, Done)))

  lemma StoredThree(e: Ste, i: WordIndex, a: Word, j: WordIndex, b: Word, k: WordIndex, c: Word)
    requires |e| == STE_WORDS
    ensures Stored(e, Put(i, a, Done)) == e[i := a]
    ensures Stored(e, Put(i, a, Put(j, b, Done))) == e[i := a][j := b]
    ensures Stored(e, Put(i, a, Put(j, b, Put(k, c, Done)))) == e[i := a][j := b][k := c]
  {
    assert Stored(e[i := a], Put(j, b, Done)) == e[i := a][j := b];
    assert Stored(e[i := a][j := b], Put(k, c, Done)) == e[i := a][j := b][k := c];
  }

  lemma StoresMakeEntry(stage: Stage, m: Master, r: Request, e: Ste)
    requires |e| == STE_WORDS
    ensures Stored(e, StoresFor(stage, m, r, e[1])) == EntryFor(stage, m, r, e)
  {
    var w0, w1, w2, w3 := Word0(stage, m), Word1(stage, e[1]), Word2(stage, r, e[2]), Word3(stage, r, e[3]);
    EntryStores(stage, e, w0, w1, w2, w3);
  }

  /** The three orders of stores give the same entry. */
  lemma EntryStores(stage: Stage, e: Ste, w0: Word, w1: Word, w2: Word, w3: Word)
    requires |e| == STE_WORDS
    ensures stage.Bypass? && w3 == e[3] ==>
              Stored(e, Put(0, w0, Put(1, w1, Put(2, w2, Done)))) == [w0, w1, w2, w3] + e[4..]
    ensures stage.S2? ==>
              Stored(e, Put(1, w1, Put(2, w2, Put(3, w3, Put(0, w0, Done))))) == [w0, w1, w2, w3] + e[4..]
    ensures stage.S1? && w2 == e[2] && w3 == e[3] ==>
              Stored(e, Put(1, w1, Put(0, w0, Done))) == [w0, w1, w2, w3] + e[4..]
  {
    match stage
    case Bypass => StoredThree(e, 0, w0, 1, w1, 2, w2);
    case S2 => StoredThree(e[1 := w1], 2, w2, 3, w3, 0, w0);
    case S1 => StoredThree(e, 1, w1, 0, w0, 0, w0);
  }

  lemma StoresMakeDefault(e: Ste)
    requires |e| == STE_WORDS
    ensures Stored(e, DEFAULT_STORES) == DefaultEntry(e)
  {
    StoredThree(e, 0, BYPASS_W0, 1, BYPASS_W1, 2, 0);
  }

  /** Commands a successful map issues before the final batch. */
  function EntryCommands(stage: Stage, sid: nat): seq<Cmd> {
    if stage.Bypass? then [] else [CfgiSte(sid), Sync, CfgiSte(sid)]
  }

  /** All commands of a successful map, in order. */
  lemma MapCommands(r: Request, hyp: bool)
    ensures EntryCommands(StageOf(r), r.sid) + FlushBatch(hyp) ==
            (if !r.stage2 && r.bypass then [] else [CfgiSte(r.sid), Sync, CfgiSte(r.sid)])
            + [CfgiAll] + (if hyp then [TlbiEl2All] else []) + [TlbiNsnhAll, Sync]
  {
  }

  /** A new group of which the first i entries have been set to bypass. */
  function Filling(i: nat): seq<Ste> {
    seq(GROUP, j => if j < i then BYPASS_STE else ZERO_STE)
  }

  lemma SetTwice(t: Memory, sid: nat, e: Ste, w: nat, v: Word)
    requires TableOk(t) && Populated(t, sid) && |e| == STE_WORDS && w < STE_WORDS
    ensures var t' := SetEntry(t, sid, e);
            TableOk(t') && Populated(t', sid) && SetWord(t', sid, w, v) == SetEntry(t, sid, e[w := v])
  {
    SetEntryFrame(t, sid, e);
    var e' := e[w := v];
    if t.Linear? {
      assert t.stes[sid := e][sid := e'] == t.stes[sid := e'];
    } else {
      var g, k := sid / GROUP, sid % GROUP;
      var old', new' := t.groups[g][k := e], t.groups[g][k := e'];
      assert old'[k := e'] == new';
      assert t.groups[g := old'][g := new'] == t.groups[g := new'];
    }
  }

  lemma SetSame(t: Memory, sid: nat)
    requires TableOk(t) && Populated(t, sid)
    ensures SetEntry(t, sid, Entry(t, sid)) == t
  {
    if t.TwoLevel? {
      var g, k := sid / GROUP, sid % GROUP;
      assert t.groups[g][k := t.groups[g][k]] == t.groups[g];
      assert t.groups[g := t.groups[g]] == t.groups;
    } else {
      assert t.stes[sid := t.stes[sid]] == t.stes;
    }
  }

  /** One more entry of a new group set to bypass. */
  lemma FillOne(t: Memory, g: nat, i: nat)
    requires TableOk(t) && t.TwoLevel? && g < |t.groups| && i < GROUP
    ensures var t' := t.(groups := t.groups[g := Filling(i)]);
            && TableOk(t') && Populated(t', GROUP * g + i)
            && SetEntry(t', GROUP * g + i, DefaultEntry(Entry(t', GROUP * g + i)))
               == t.(groups := t.groups[g := Filling(i + 1)])
  {
    var sid := GROUP * g + i;
    assert sid / GROUP == g && sid % GROUP == i;
    assert DefaultEntry(ZERO_STE) == BYPASS_STE;
    assert Filling(i)[i := BYPASS_STE] == Filling(i + 1);
    assert t.groups[g := Filling(i)][g := Filling(i + 1)] == t.groups[g := Filling(i + 1)];
  }

  lemma DrainedIssued(h: Hw)
    requires HwOk(h)
    ensures Occupancy(h.ring) == 0 ==> Issued(h) == h.executed && Pending(h.ring) == []
  {
  }

  lemma FourSlots(n: nat)
    requires n >= 2
    ensures Pow2(n) >= 4
  {
    assert Pow2(n) == 2 * (2 * Pow2(n - 2));
  }

  lemma FillStep(h: Hw, c: Cmd, h': Hw)
    requires HwOk(h) && Slot(h.ring.n, h.ring.prod) < |h.ring.slots|
    requires h' == h.(ring := h.ring.(slots := h.ring.slots[Slot(h.ring.n, h.ring.prod) := c]))
    ensures HwOk(h') && Occupancy(h'.ring) == Occupancy(h.ring)
    ensures Occupancy(h.ring) < Pow2(h.ring.n) ==> Issued(h') == Issued(h) && (Settling(h) ==> Settling(h'))
  {
    if Occupancy(h.ring) < Pow2(h.ring.n) { FillSlot(h.ring, c); }
  }

  lemma PublishStep(h: Hw, c: Cmd, h': Hw)
    requires HwOk(h) && Slot(h.ring.n, h.ring.prod) < |h.ring.slots|
    requires h.ring.slots[Slot(h.ring.n, h.ring.prod)] == c
    requires h' == h.(ring := h.ring.(prod := IncProd(h.ring.n, h.ring.prod)))
    ensures HwOk(h')
    ensures Occupancy(h.ring) < Pow2(h.ring.n) ==>
              && Issued(h') == Issued(h) + [c] && Occupancy(h'.ring) == Occupancy(h.ring) + 1
              && (c == CfgiAll || Settling(h) ==> Settling(h'))
  {
    IndexFacts(h.ring.n, h.ring.prod);
    if Occupancy(h.ring) < Pow2(h.ring.n) {
      Publish(h.ring);
      assert h.executed + (Pending(h.ring) + [c]) == h.executed + Pending(h.ring) + [c];
    }
  }

  // ----- what the SMMU sees -----

  /** Every entry that exists can be reached by the SMMU. */
  ghost predicate AllPublished(t: Memory)
    requires TableOk(t)
  {
    forall s: nat :: Populated(t, s) ==> Published(t, s)
  }

  /** Maps keep it so, and after a successful one a walk for its stream ID finds its entry. */
  lemma MapIsSeen(d: Driver, r: Request, f: Features, al: Allocations)
    requires TableOk(d.tab) && AllPublished(d.tab)
    ensures var (d', status) := Map(d, r, f, al);
            && TableOk(d'.tab) && AllPublished(d'.tab)
            && (status == 0 ==> r.sid < Sids(d'.tab) && Populated(d'.tab, r.sid)
                                && Walk(d'.tab, r.sid, Published(d'.tab, r.sid)) == Valid(Entry(d'.tab, r.sid)))
  {
    var (d', status) := Map(d, r, f, al);
    MapKeepsOthers(d, r, f, al);
    MapTable(d, r, f, al);
    if r.sid < Sids(d.tab) {
      PopulateFrame(d.tab, r.sid);
      PopulatePublishes(d.tab, r.sid);
      if status == 0 {
        var t := Populate(d.tab, r.sid);
        var i := MasterAt(d.masters, r.sid, al).1;
        SetEntryFrame(t, r.sid, EntryFor(StageOf(r), d'.masters[i], r, Entry(t, r.sid)));
      }
    }
  }

  lemma PopulatePublishes(t: Memory, sid: nat)
    requires TableOk(t) && AllPublished(t) && sid < Sids(t)
    ensures TableOk(Populate(t, sid)) && AllPublished(Populate(t, sid))
  {
    PopulateFrame(t, sid);
    var t' := Populate(t, sid);
    forall s: nat | Populated(t', s) ensures Published(t', s) {
      assert s / GROUP != sid / GROUP ==> Populated(t, s);
    }
  }

  // ----- a stale entry -----

  /** Whatever the SMMU has cached for a group that appears is stale from then on. */
  lemma NewGroupIsStale(h: Hw, h': Hw, sid: nat)
    requires HwOk(h) && HwOk(h') && Coherent(h) && sid in h.stes && h'.stes == h.stes && Sids(h'.tab) == Sids(h.tab)
    requires !Populated(h.tab, sid) && Populated(h'.tab, sid) && Published(h'.tab, sid)
    ensures h'.stes[sid] == Invalid && !Coherent(h')
  {
  }

  const IDLE_RING := Ring(2, [Sync, Sync, Sync, Sync], 0, 0)
  const EMPTY_TABLE := TwoLevel([false], [[]])
  const STAGE1 := Request(5, 0, 0, false, false, 0, Tcr(0, 0, 0, 0, 0, 0))

  /** A run that ends so: the SMMU has cached that stream 5 has no entry; a stage 1 map of it
      gets memory for the group, none for the context table, and fails. */
  method StaleAfterFailedMap() returns (status: nat, hw: Hw)
    ensures status == 1 && HwOk(hw) && !Coherent(hw)
    ensures 5 in hw.stes && hw.stes[5] == Invalid
    ensures 5 < Sids(hw.tab) && Walk(hw.tab, 5, true) == Valid(BYPASS_STE)
  {
    var before := Hw(IDLE_RING, EMPTY_TABLE, map[5 := Invalid], map[], []);
    assert Pow2(2) == 4;
    assert HwOk(before) && Coherent(before);
    var smmu := new Smmu(before, Features(true, true, true), false, true);
    var al := Allocations(true, true, true, 0, true);
    FailedMap(al);
    var drained;
    status, drained := smmu.RlmMap(STAGE1, al);
    hw := smmu.hw;
    NewGroupIsStale(before, hw, 5);
  }

  lemma FailedMap(al: Allocations)
    requires al.node && al.master && al.group && al.cdtab == 0
    ensures TableOk(EMPTY_TABLE)
    ensures var (d, status) := Map(Driver([], EMPTY_TABLE), STAGE1, Features(true, true, true), al);
            && status == 1 && TableOk(d.tab) && d.tab == Populate(EMPTY_TABLE, 5)
            && Sids(d.tab) == 256 && Populated(d.tab, 5) && Published(d.tab, 5) && Entry(d.tab, 5) == BYPASS_STE
  {
    PopulateFrame(EMPTY_TABLE, 5);
  }
}
