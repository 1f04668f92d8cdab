/** Stream table memory, the list of masters, and what val_smmu_rlm_map and
    val_smmu_unmap do to them. */
module StreamTable {
  import opened Bits
  import opened Wrappers

  type Word = bv64
  /** A stream table entry: eight words. */
  type Ste = seq<Word>

  const GROUP: nat := 256
  const CD_SPLIT: nat := 1024
  const STE_WORDS: nat := 8

  /** A linear table, or a first level of descriptors over groups of 256 entries.
      A group that has not been allocated is the empty sequence; `published` is the
      first-level descriptor the SMMU reads. */
  datatype Memory =
    | Linear(stes: seq<Ste>)
    | TwoLevel(published: seq<bool>, groups: seq<seq<Ste>>)

  predicate GroupOk(g: seq<Ste>) {
    g == [] || (|g| == GROUP && forall i :: 0 <= i < GROUP ==> |g[i]| == STE_WORDS)
  }

  predicate TableOk(t: Memory) {
    match t
    case Linear(stes) => forall i :: 0 <= i < |stes| ==> |stes[i]| == STE_WORDS
    case TwoLevel(published, groups) =>
      && |published| == |groups|
      && forall i :: 0 <= i < |groups| ==> GroupOk(groups[i]) && (published[i] ==> groups[i] != [])
  }

  /** Number of stream IDs: 2 to the power sid_bits. */
  function Sids(t: Memory): nat {
    match t
    case Linear(stes) => |stes|
    case TwoLevel(_, groups) => GROUP * |groups|
  }

  predicate Populated(t: Memory, sid: nat) {
    sid < Sids(t) && (t.TwoLevel? ==> t.groups[sid / GROUP] != [])
  }

  function Entry(t: Memory, sid: nat): Ste
    requires TableOk(t) && Populated(t, sid)
  {
    if t.Linear? then t.stes[sid] else t.groups[sid / GROUP][sid % GROUP]
  }

  function SetEntry(t: Memory, sid: nat, e: Ste): Memory
    requires TableOk(t) && Populated(t, sid)
  {
    if t.Linear? then t.(stes := t.stes[sid := e])
    else
      var g := t.groups[sid / GROUP];
      t.(groups := t.groups[sid / GROUP := g[sid % GROUP := e]])
  }

  lemma SetEntryFrame(t: Memory, sid: nat, e: Ste)
    requires TableOk(t) && Populated(t, sid) && |e| == STE_WORDS
    ensures TableOk(SetEntry(t, sid, e)) && Sids(SetEntry(t, sid, e)) == Sids(t)
    ensures forall s: nat :: Populated(SetEntry(t, sid, e), s) <==> Populated(t, s)
    ensures forall s: nat :: Populated(t, s) ==> Entry(SetEntry(t, sid, e), s) == if s == sid then e else Entry(t, s)
  {
    var t' := SetEntry(t, sid, e);
    forall s: nat | Populated(t, s) ensures Entry(t', s) == if s == sid then e else Entry(t, s) {
      if s / GROUP == sid / GROUP && s % GROUP == sid % GROUP {
        assert s == GROUP * (s / GROUP) + s % GROUP;
      }
    }
  }

  // ----- entry contents -----

  /** A field of a word: its mask at bit 0, and where it goes. */
  function Field(v: Word, mask: Word, shift: Word): Word
    requires shift < 64
  {
    (v & mask) << shift
  }

  const STE_VALID: Word := 1
  /** S2PTW, S2AA64 and S2R: bits 54, 51 and 58. */
  const S2_FLAGS: Word := 0x448_0000_0000_0000
  const BYPASS_W0: Word := 9
  const BYPASS_W1: Word := 0x1000_0000_0000

  datatype Tcr = Tcr(tsz: Word, tg: Word, irgn: Word, orgn: Word, sh: Word, ps: Word)
  datatype Stage = S1 | S2 | Bypass

  datatype Request = Request(
    sid: nat, ssid: nat, ssidBits: Word, stage2: bool, bypass: bool, pgtBase: Word, tcr: Tcr)

  function StageOf(r: Request): Stage {
    if r.stage2 then S2 else if r.bypass then Bypass else S1
  }

  /** One node of the master list. `cdtab` is 0 while no context table is allocated. */
  datatype Master = Master(bound: bool, sid: nat, ssidBits: Word, cdtab: Word, s1fmt: Word)

  const NO_MASTER := Master(false, 0, 0, 0, 0)

  function Vtcr(t: Tcr): Word {
    Field(t.tsz, 0x3F, 0) | Field(t.sh, 3, 6) | Field(t.irgn, 3, 8) | Field(t.orgn, 3, 10) |
    Field(t.sh, 3, 12) | Field(t.tg, 3, 14) | Field(t.ps, 7, 16)
  }

  /** First word the map operation leaves for a stage. */
  function Word0(stage: Stage, m: Master): Word {
    match stage
    case Bypass => STE_VALID | Field(4, 7, 1)
    case S2 => STE_VALID | Field(6, 7, 1)
    case S1 => STE_VALID | (m.cdtab & 0xF_FFFF_FFFF_FFC0) | Field(5, 7, 1)
               | Field(m.ssidBits, 0x1F, 59) | Field(m.s1fmt, 3, 4)
  }

  function Word1(stage: Stage, w1: Word): Word {
    match stage
    case Bypass => Field(1, 3, 44)
    case S2 => w1 | Field(2, 3, 30) | Field(1, 3, 28)
    case S1 => Field(2, 3, 0) | Field(1, 3, 2) | Field(1, 3, 4) | Field(3, 3, 6) | Field(1, 3, 28)
  }

  function Word2(stage: Stage, r: Request, w2: Word): Word {
    match stage
    case Bypass => 0
    case S2 => Field(0, 0xFFFF, 0) | Field(Vtcr(r.tcr), 0x7_FFFF, 32) | S2_FLAGS
    case S1 => w2
  }

  function Word3(stage: Stage, r: Request, w3: Word): Word {
    if stage.S2? then r.pgtBase & 0xFFFF_FFFF_FFFF else w3
  }

  /** The entry after smmu_strtab_write_ste. */
  function EntryFor(stage: Stage, m: Master, r: Request, e: Ste): Ste
    requires |e| == STE_WORDS
  {
    [Word0(stage, m), Word1(stage, e[1]), Word2(stage, r, e[2]), Word3(stage, r, e[3])] + e[4..]
  }

  /** The same with no master: default bypass. */
  function DefaultEntry(e: Ste): Ste
    requires |e| == STE_WORDS
  {
    [BYPASS_W0, BYPASS_W1, 0] + e[3..]
  }

  /** The fields the SMMU decodes from word 0: valid, the stage, and for stage 1 the
      context table base, its size and its format. */
  lemma Word0Decodes(m: Master)
    requires m.cdtab & 0x3F == 0 && m.cdtab < (1 << 52) && m.ssidBits < 32 && m.s1fmt < 4
    ensures forall s: Stage :: Word0(s, m) & 1 == 1
    ensures (Word0(S1, m) >> 1) & 7 == 5 && (Word0(S2, m) >> 1) & 7 == 6 && (Word0(Bypass, m) >> 1) & 7 == 4
    ensures Word0(S1, m) & 0xF_FFFF_FFFF_FFC0 == m.cdtab
    ensures (Word0(S1, m) >> 4) & 3 == m.s1fmt
    ensures Word0(S1, m) >> 59 == m.ssidBits
    ensures Word0(Bypass, m) == BYPASS_W0
  {
    ContextWord(m.cdtab, m.ssidBits, m.s1fmt);
  }

  lemma ContextWord(cd: Word, bits: Word, fmt: Word)
    requires cd & 0x3F == 0 && cd < (1 << 52) && bits < 32 && fmt < 4
    ensures var w := STE_VALID | (cd & 0xF_FFFF_FFFF_FFC0) | Field(5, 7, 1) | Field(bits, 0x1F, 59) | Field(fmt, 3, 4);
            && w & 1 == 1 && (w >> 1) & 7 == 5 && w & 0xF_FFFF_FFFF_FFC0 == cd
            && (w >> 4) & 3 == fmt && w >> 59 == bits
  {
  }

  // ----- the group of an entry -----

  const ZERO_STE: Ste := [0, 0, 0, 0, 0, 0, 0, 0]
  const BYPASS_STE: Ste := [BYPASS_W0, BYPASS_W1, 0, 0, 0, 0, 0, 0]

  /** smmu_strtab_init_level2 once its allocation succeeded: nothing if the group is there. */
  function Populate(t: Memory, sid: nat): Memory
    requires TableOk(t) && sid < Sids(t)
  {
    if t.Linear? || t.groups[sid / GROUP] != [] then t
    else t.(published := t.published[sid / GROUP := true],
            groups := t.groups[sid / GROUP := seq(GROUP, _ => BYPASS_STE)])
  }

  lemma PopulateFrame(t: Memory, sid: nat)
    requires TableOk(t) && sid < Sids(t)
    ensures TableOk(Populate(t, sid)) && Sids(Populate(t, sid)) == Sids(t) && Populated(Populate(t, sid), sid)
    ensures forall s: nat :: Populated(t, s) ==>
        Populated(Populate(t, sid), s) && Entry(Populate(t, sid), s) == Entry(t, s)
    ensures forall s: nat :: Populated(Populate(t, sid), s) && !Populated(t, s) ==>
        Entry(Populate(t, sid), s) == BYPASS_STE
  {
  }

  // ----- masters -----

  function FindMaster(ms: seq<Master>, sid: nat): (i: nat)
    ensures i <= |ms|
    ensures i < |ms| ==> ms[i].sid == sid
    ensures forall j :: 0 <= j < i ==> ms[j].sid != sid
  {
    if ms == [] || ms[0].sid == sid then 0 else 1 + FindMaster(ms[1..], sid)
  }

  /** No nonzero stream ID appears on two nodes. */
  ghost predicate UniqueMasters(ms: seq<Master>) {
    forall i, j :: 0 <= i < j < |ms| && ms[i].sid == ms[j].sid ==> ms[i].sid == 0
  }

  /** Which allocations succeed during one call; `cdtab` is the context table's address or 0. */
  datatype Allocations = Allocations(node: bool, master: bool, group: bool, cdtab: Word, leaf: bool)

  datatype Features = Features(s1p: bool, s2p: bool, cd2l: bool)

  datatype Driver = Driver(masters: seq<Master>, tab: Memory)

  /** smmu_master_at: the list, and the index of the node (|list| if an allocation failed). */
  function MasterAt(ms: seq<Master>, sid: nat, al: Allocations): (seq<Master>, nat) {
    var i := FindMaster(ms, sid);
    if i < |ms| then (ms, i)
    else if al.node && al.master then ([NO_MASTER] + ms, 0)
    else (ms, |ms|)
  }

  /** Entries of a context table: the size field keeps eight bits. */
  function ContextEntries(ssidBits: Word): nat { Pow2((ssidBits & 0xFF) as nat) }

  /** Context table set-up of a stage 1 map: the master afterwards and whether it succeeded. */
  function ContextTable(m: Master, r: Request, f: Features, al: Allocations): (Master, bool) {
    var size := ContextEntries(m.ssidBits);
    var m' := if m.cdtab != 0 then m
              else m.(s1fmt := if f.cd2l && size > CD_SPLIT then 2 else 0, cdtab := al.cdtab);
    (m', m'.cdtab != 0 && r.ssid < size && (m'.s1fmt == 0 || al.leaf))
  }

  function BindMaster(m: Master, r: Request): Master {
    if m.bound then m else m.(bound := true, sid := r.sid, ssidBits := r.ssidBits)
  }

  /** Finds and binds the master and checks the stage is supported: the list, the
      node's index, and whether the call goes on. */
  function Prepare(ms: seq<Master>, r: Request, f: Features, al: Allocations): (seq<Master>, nat, bool) {
    var (ms', i) := MasterAt(ms, r.sid, al);
    if i == |ms'| then (ms', i, false)
    else (ms'[i := BindMaster(ms'[i], r)], i, if r.stage2 then f.s2p else r.bypass || f.s1p)
  }

  /** The part of the map that follows once the entry's group exists. */
  function Commit(ms: seq<Master>, i: nat, t: Memory, r: Request, f: Features, al: Allocations): (Driver, nat)
    requires TableOk(t) && Populated(t, r.sid) && i < |ms|
  {
    var (m, ok) := if StageOf(r).S1? then ContextTable(ms[i], r, f, al) else (ms[i], true);
    if !ok then (Driver(ms[i := m], t), 1)
    else (Driver(ms[i := m], SetEntry(t, r.sid, EntryFor(StageOf(r), m, r, Entry(t, r.sid)))), 0)
  }

  /** val_smmu_rlm_map on a present SMMU: new state and returned status. */
  function Map(d: Driver, r: Request, f: Features, al: Allocations): (Driver, nat)
    requires TableOk(d.tab)
  {
    var (ms, i, ok) := Prepare(d.masters, r, f, al);
    if !ok || r.sid >= Sids(d.tab) || (!Populated(d.tab, r.sid) && !al.group) then (d.(masters := ms), 1)
    else
      PopulateFrame(d.tab, r.sid);
      Commit(ms, i, Populate(d.tab, r.sid), r, f, al)
  }

  /** val_smmu_unmap on a linear table. */
  function Unmap(d: Driver, sid: nat, al: Allocations): Driver
    requires TableOk(d.tab) && d.tab.Linear?
  {
    var (ms, i) := MasterAt(d.masters, sid, al);
    if i == |ms| || !ms[i].bound || sid >= Sids(d.tab) then d.(masters := ms)
    else Driver(ms[i := NO_MASTER], SetEntry(d.tab, sid, DefaultEntry(Entry(d.tab, sid))))
  }

  // ----- what every call keeps -----

  lemma MasterAtKeepsUnique(ms: seq<Master>, sid: nat, al: Allocations)
    requires UniqueMasters(ms)
    ensures var (ms', i) := MasterAt(ms, sid, al);
            && i <= |ms'| && UniqueMasters(ms')
            && (i < |ms'| ==> (ms'[i].sid == sid || (!ms'[i].bound && ms'[i].sid == 0)))
            && (i < |ms'| ==> forall j :: 0 <= j < |ms'| && j != i && ms'[j].sid == sid ==> sid == 0)
  {
  }

  /** At most one node carries any nonzero stream ID, whatever the calls. */
  lemma MapKeepsUnique(d: Driver, r: Request, f: Features, al: Allocations)
    requires TableOk(d.tab) && UniqueMasters(d.masters) && BoundHasSid(d.masters)
    ensures UniqueMasters(Map(d, r, f, al).0.masters) && BoundHasSid(Map(d, r, f, al).0.masters)
  {
    MasterAtKeepsUnique(d.masters, r.sid, al);
    var (ms, i) := MasterAt(d.masters, r.sid, al);
    if i < |ms| {
      MapUsesNode(d, r, f, al);
      BindKeepsUnique(ms, i, Map(d, r, f, al).0.masters[i], r.sid);
    }
  }

  lemma PrepareUsesNode(ms: seq<Master>, r: Request, f: Features, al: Allocations)
    ensures var (ms', i) := MasterAt(ms, r.sid, al);
            && i <= |ms'| && Prepare(ms, r, f, al).1 == i
            && (i == |ms'| ==> Prepare(ms, r, f, al).0 == ms' && !Prepare(ms, r, f, al).2)
            && (i < |ms'| ==> Prepare(ms, r, f, al).0 == ms'[i := BindMaster(ms'[i], r)])
  {
  }

  lemma CommitUsesNode(ms: seq<Master>, i: nat, t: Memory, r: Request, f: Features, al: Allocations)
    requires TableOk(t) && Populated(t, r.sid) && i < |ms|
    ensures var ms' := Commit(ms, i, t, r, f, al).0.masters;
            && |ms'| == |ms| && ms' == ms[i := ms'[i]]
            && ms'[i].bound == ms[i].bound && ms'[i].sid == ms[i].sid
  {
  }

  /** Every outcome of a map call changes one node only, and leaves it bound to the stream ID. */
  lemma MapUsesNode(d: Driver, r: Request, f: Features, al: Allocations)
    requires TableOk(d.tab)
    ensures var (ms, i) := MasterAt(d.masters, r.sid, al);
            var ms' := Map(d, r, f, al).0.masters;
            if i == |ms| then ms' == ms
            else && i < |ms| == |ms'| && ms' == ms[i := ms'[i]] && ms'[i].bound
                 && ms'[i].sid == if ms[i].bound then ms[i].sid else r.sid
  {
    PrepareUsesNode(d.masters, r, f, al);
    MapAfterPrepare(d, r, f, al);
    var (ms, i) := MasterAt(d.masters, r.sid, al);
    if i < |ms| {
      NodeReplaced(ms, Prepare(d.masters, r, f, al).0, Map(d, r, f, al).0.masters, i, BindMaster(ms[i], r));
    }
  }

  lemma NodeReplaced(ms: seq<Master>, ms1: seq<Master>, ms2: seq<Master>, i: nat, b: Master)
    requires i < |ms| && ms1 == ms[i := b] && |ms2| == |ms1| && ms2 == ms1[i := ms2[i]]
    ensures |ms2| == |ms| && ms2 == ms[i := ms2[i]]
  {
  }

  /** After the preparation only the node's context table fields can change. */
  lemma MapAfterPrepare(d: Driver, r: Request, f: Features, al: Allocations)
    requires TableOk(d.tab)
    ensures var (ms, i, ok) := Prepare(d.masters, r, f, al);
            var ms' := Map(d, r, f, al).0.masters;
            && (!ok ==> ms' == ms)
            && (i < |ms| ==> |ms'| == |ms| && ms' == ms[i := ms'[i]]
                             && ms'[i].bound == ms[i].bound && ms'[i].sid == ms[i].sid)
  {
    var (ms, i, ok) := Prepare(d.masters, r, f, al);
    PrepareUsesNode(d.masters, r, f, al);
    if ok && r.sid < Sids(d.tab) && (Populated(d.tab, r.sid) || al.group) {
      PopulateFrame(d.tab, r.sid);
      CommitUsesNode(ms, i, Populate(d.tab, r.sid), r, f, al);
    }
  }

  lemma BindKeepsUnique(ms: seq<Master>, i: nat, m: Master, sid: nat)
    requires i < |ms| && UniqueMasters(ms) && BoundHasSid(ms) && m.bound && (m.sid == sid || m.sid == ms[i].sid)
    requires forall j :: 0 <= j < |ms| && j != i && ms[j].sid == sid ==> sid == 0
    ensures UniqueMasters(ms[i := m]) && BoundHasSid(ms[i := m])
  {
  }

  /** A node that is not bound was zeroed, so it carries stream ID 0. */
  ghost predicate BoundHasSid(ms: seq<Master>) {
    forall i :: 0 <= i < |ms| && !ms[i].bound ==> ms[i] == NO_MASTER
  }

  lemma UnmapKeepsUnique(d: Driver, sid: nat, al: Allocations)
    requires TableOk(d.tab) && d.tab.Linear? && UniqueMasters(d.masters) && BoundHasSid(d.masters)
    ensures UniqueMasters(Unmap(d, sid, al).masters) && BoundHasSid(Unmap(d, sid, al).masters)
  {
    MasterAtKeepsUnique(d.masters, sid, al);
  }

  /** Word 0 of the entry the lookup finds for a stream ID, if its group exists. */
  ghost function Word0At(t: Memory, s: nat): Option<Word>
    requires TableOk(t)
  {
    if Populated(t, s) then Some(Entry(t, s)[0]) else None
  }

  /** The master node the call used holds the data its word 0 was built from. */
  ghost function MappedWord(d: Driver, r: Request): Word {
    var i := FindMaster(d.masters, r.sid);
    Word0(StageOf(r), if i < |d.masters| then d.masters[i] else NO_MASTER)
  }

  /** A map call that succeeds sets its own stream ID's word 0 from its master. */
  lemma MapSets(d: Driver, r: Request, f: Features, al: Allocations)
    requires TableOk(d.tab) && Map(d, r, f, al).1 == 0
    ensures var d' := Map(d, r, f, al).0;
            TableOk(d'.tab) && Word0At(d'.tab, r.sid) == Some(MappedWord(d', r))
  {
    var d' := Map(d, r, f, al).0;
    MapTable(d, r, f, al);
    PopulateFrame(d.tab, r.sid);
    MapUsesNode(d, r, f, al);
    var t := Populate(d.tab, r.sid);
    var (ms, i) := MasterAt(d.masters, r.sid, al);
    SetEntryFrame(t, r.sid, EntryFor(StageOf(r), d'.masters[i], r, Entry(t, r.sid)));
    FindAt(ms, d'.masters, i, r.sid);
  }

  /** No map call changes an entry other than its own; new entries are default bypass. */
  lemma MapKeepsOthers(d: Driver, r: Request, f: Features, al: Allocations)
    requires TableOk(d.tab)
    ensures var (d', status) := Map(d, r, f, al);
            && TableOk(d'.tab) && Sids(d'.tab) == Sids(d.tab)
            && (forall s: nat :: Populated(d.tab, s) && (s != r.sid || status != 0) ==>
                  Populated(d'.tab, s) && Entry(d'.tab, s) == Entry(d.tab, s))
            && (forall s: nat :: Populated(d'.tab, s) && !Populated(d.tab, s) && (s != r.sid || status != 0) ==>
                  Entry(d'.tab, s) == BYPASS_STE)
  {
    var (d', status) := Map(d, r, f, al);
    MapTable(d, r, f, al);
    if r.sid < Sids(d.tab) {
      PopulateFrame(d.tab, r.sid);
      if status == 0 {
        var t := Populate(d.tab, r.sid);
        var i := MasterAt(d.masters, r.sid, al).1;
        SetEntryFrame(t, r.sid, EntryFor(StageOf(r), d'.masters[i], r, Entry(t, r.sid)));
      }
    }
  }

  /** One map call on the flat view: it sets its own stream ID on success, may turn
      unpopulated ones into default bypass, and leaves every other entry untouched. */
  lemma MapRefinesFlat(d: Driver, r: Request, f: Features, al: Allocations)
    requires TableOk(d.tab)
    ensures var (d', status) := Map(d, r, f, al);
            && TableOk(d'.tab) && Sids(d'.tab) == Sids(d.tab)
            && (status == 0 ==> Word0At(d'.tab, r.sid) == Some(MappedWord(d', r)))
            && (forall s: nat :: Populated(d.tab, s) && (s != r.sid || status != 0) ==>
                  Populated(d'.tab, s) && Entry(d'.tab, s) == Entry(d.tab, s))
            && (forall s: nat :: Populated(d'.tab, s) && !Populated(d.tab, s) && (s != r.sid || status != 0) ==>
                  Entry(d'.tab, s) == BYPASS_STE)
  {
    MapKeepsOthers(d, r, f, al);
    if Map(d, r, f, al).1 == 0 { MapSets(d, r, f, al); }
  }

  /** The table after a call: unchanged, populated only, or populated with the entry written. */
  lemma MapTable(d: Driver, r: Request, f: Features, al: Allocations)
    requires TableOk(d.tab)
    ensures var (d', status) := Map(d, r, f, al);
            var (ms, i) := MasterAt(d.masters, r.sid, al);
            if status != 0 then d'.tab == d.tab || (r.sid < Sids(d.tab) && d'.tab == Populate(d.tab, r.sid))
            else && r.sid < Sids(d.tab) && i < |d'.masters| == |ms|
                 && var t := Populate(d.tab, r.sid);
                    TableOk(t) && Populated(t, r.sid) &&
                    d'.tab == SetEntry(t, r.sid, EntryFor(StageOf(r), d'.masters[i], r, Entry(t, r.sid)))
  {
    if r.sid < Sids(d.tab) { PopulateFrame(d.tab, r.sid); }
  }

  lemma MapKeepsShape(d: Driver, r: Request, f: Features, al: Allocations)
    requires TableOk(d.tab)
    ensures Map(d, r, f, al).0.tab.Linear? == d.tab.Linear?
  {
    MapTable(d, r, f, al);
  }

  /** The node the call used is the first one with its stream ID. */
  lemma FindAt(ms: seq<Master>, ms': seq<Master>, i: nat, sid: nat)
    requires i < |ms| && |ms'| == |ms| && ms' == ms[i := ms'[i]] && ms'[i].sid == sid
    requires forall j :: 0 <= j < i ==> ms[j].sid != sid
    ensures FindMaster(ms', sid) == i
  {
    assert forall j :: 0 <= j < i ==> ms'[j] == ms[j];
  }

  lemma UnmapRefinesFlat(d: Driver, sid: nat, al: Allocations)
    requires TableOk(d.tab) && d.tab.Linear?
    ensures var d' := Unmap(d, sid, al);
            && TableOk(d'.tab) && d'.tab.Linear? && Sids(d'.tab) == Sids(d.tab)
            && (Unmaps(d, sid, al) ==> Word0At(d'.tab, sid) == Some(BYPASS_W0))
            && (forall s: nat :: Populated(d.tab, s) && (s != sid || !Unmaps(d, sid, al)) ==>
                  Populated(d'.tab, s) && Entry(d'.tab, s) == Entry(d.tab, s))
  {
    if sid < Sids(d.tab) { SetEntryFrame(d.tab, sid, DefaultEntry(Entry(d.tab, sid))); }
  }

  /** The unmap call found a bound master with a stream ID in range. */
  predicate Unmaps(d: Driver, sid: nat, al: Allocations) {
    var (ms, i) := MasterAt(d.masters, sid, al);
    i < |ms| && ms[i].bound && sid < Sids(d.tab)
  }

  // ----- failed maps that leave something behind -----

  /** A supported stage 1 request in range whose group is missing, gets its memory, and then
      has no context table entry. */
  ghost predicate LeavesGroup(d: Driver, r: Request, f: Features, al: Allocations) {
    var (ms, i, ok) := Prepare(d.masters, r, f, al);
    && ok && i < |ms| && StageOf(r).S1? && r.sid < Sids(d.tab) && !Populated(d.tab, r.sid) && al.group
    && !ContextTable(ms[i], r, f, al).1
  }

  /** Exactly those failed maps change the table. */
  lemma LeavesGroupIff(d: Driver, r: Request, f: Features, al: Allocations)
    requires TableOk(d.tab)
    ensures Map(d, r, f, al).1 != 0 && Map(d, r, f, al).0.tab != d.tab <==> LeavesGroup(d, r, f, al)
  {
    var (ms, i, ok) := Prepare(d.masters, r, f, al);
    PrepareUsesNode(d.masters, r, f, al);
    if ok && r.sid < Sids(d.tab) && (Populated(d.tab, r.sid) || al.group) {
      PopulateFrame(d.tab, r.sid);
      CommitFails(ms, i, Populate(d.tab, r.sid), r, f, al);
      assert Populated(Populate(d.tab, r.sid), r.sid);
    }
  }

  lemma CommitFails(ms: seq<Master>, i: nat, t: Memory, r: Request, f: Features, al: Allocations)
    requires TableOk(t) && Populated(t, r.sid) && i < |ms|
    ensures Commit(ms, i, t, r, f, al).1 != 0 <==> StageOf(r).S1? && !ContextTable(ms[i], r, f, al).1
    ensures Commit(ms, i, t, r, f, al).1 != 0 ==> Commit(ms, i, t, r, f, al).0.tab == t
  {
  }

  // ----- runs -----

  datatype Call = MapCall(r: Request, al: Allocations) | UnmapCall(sid: nat, al: Allocations)

  ghost predicate Steps(d: Driver, c: Call, d': Driver, f: Features) {
    TableOk(d.tab) &&
    match c
    case MapCall(r, al) => d' == Map(d, r, f, al).0
    case UnmapCall(sid, al) => d.tab.Linear? && d' == Unmap(d, sid, al)
  }

  /** State and status after one call; an unmap that finds nothing to do counts as failed. */
  ghost function CallResult(d: Driver, c: Call, f: Features): (Driver, nat)
    requires TableOk(d.tab) && (c.UnmapCall? ==> d.tab.Linear?)
  {
    match c
    case MapCall(r, al) => Map(d, r, f, al)
    case UnmapCall(sid, al) => (Unmap(d, sid, al), if Unmaps(d, sid, al) then 0 else 1)
  }

  lemma CallKeepsTable(d: Driver, c: Call, f: Features)
    requires TableOk(d.tab) && (c.UnmapCall? ==> d.tab.Linear?)
    ensures TableOk(CallResult(d, c, f).0.tab) && CallResult(d, c, f).0.tab.Linear? == d.tab.Linear?
  {
    match c
    case MapCall(r, al) =>
      MapKeepsOthers(d, r, f, al);
      MapKeepsShape(d, r, f, al);
    case UnmapCall(sid, al) => UnmapRefinesFlat(d, sid, al);
  }

  /** The states before, between and after a sequence of calls, and the status of each. */
  datatype Log = Log(states: seq<Driver>, statuses: seq<nat>)

  /** The log records the first n calls, made from state d. */
  ghost predicate Logs(log: Log, d: Driver, calls: seq<Call>, n: nat, f: Features) {
    && |log.states| == n + 1 && |log.statuses| == n <= |calls| && log.states[0] == d
    && forall j :: 0 <= j < n ==> LoggedCall(log, calls, j, f)
  }

  ghost predicate LoggedCall(log: Log, calls: seq<Call>, j: int, f: Features) {
    && 0 <= j < |log.statuses| && j < |calls| && j + 1 < |log.states|
    && TableOk(log.states[j].tab) && (calls[j].UnmapCall? ==> log.states[j].tab.Linear?)
    && CallResult(log.states[j], calls[j], f) == (log.states[j + 1], log.statuses[j])
  }

  ghost predicate LeavesAt(log: Log, calls: seq<Call>, j: int, f: Features) {
    && 0 <= j < |log.states| && j < |calls| && calls[j].MapCall?
    && LeavesGroup(log.states[j], calls[j].r, f, calls[j].al)
  }

  /** Every map that left a new group behind is followed by a call that succeeded. */
  ghost predicate Settled(log: Log, calls: seq<Call>, n: nat, f: Features) {
    forall j :: 0 <= j < n && LeavesAt(log, calls, j, f) ==> SucceedsAfter(log, j, n)
  }

  ghost predicate SucceedsAfter(log: Log, j: int, n: nat) {
    exists i :: j < i < n && 0 <= i < |log.statuses| && log.statuses[i] == 0
  }

  ghost function Extended(log: Log, d: Driver, status: nat): Log {
    Log(log.states + [d], log.statuses + [status])
  }

  lemma LogsMore(log: Log, d: Driver, calls: seq<Call>, n: nat, f: Features, d': Driver, status: nat)
    requires Logs(log, d, calls, n, f) && n < |calls| && TableOk(log.states[n].tab)
    requires calls[n].UnmapCall? ==> log.states[n].tab.Linear?
    requires CallResult(log.states[n], calls[n], f) == (d', status)
    ensures Logs(Extended(log, d', status), d, calls, n + 1, f)
  {
    var log' := Extended(log, d', status);
    forall j | 0 <= j < n + 1 ensures LoggedCall(log', calls, j, f) {
      if j < n { assert LoggedCall(log, calls, j, f); }
    }
  }

  /** After a failed call things are settled only if they were before and it left nothing. */
  lemma SettledStep(log: Log, d: Driver, calls: seq<Call>, n: nat, f: Features, d': Driver, status: nat)
    requires Logs(log, d, calls, n, f) && n < |calls| && status != 0
    requires Settled(Extended(log, d', status), calls, n + 1, f)
    ensures Settled(log, calls, n, f) && !LeavesAt(log, calls, n, f)
  {
    var log' := Extended(log, d', status);
    forall j | 0 <= j < n && LeavesAt(log, calls, j, f) ensures SucceedsAfter(log, j, n) {
      assert LeavesAt(log', calls, j, f);
      var i :| j < i < n + 1 && 0 <= i < |log'.statuses| && log'.statuses[i] == 0;
      assert log.statuses[i] == 0;
    }
    assert LeavesAt(log, calls, n, f) ==> LeavesAt(log', calls, n, f);
    assert !SucceedsAfter(log', n, n + 1);
  }

  /** As the driver's initialisation leaves it. */
  ghost predicate Initial(d: Driver) {
    && d.masters == [] && TableOk(d.tab)
    && forall s: nat :: Populated(d.tab, s) ==> d.tab.Linear? && Entry(d.tab, s)[0] == BYPASS_W0
  }

  /** A run: the initial state and the state after each further call. */
  datatype Trace = Start(d: Driver) | Then(before: Trace, call: Call, d: Driver)

  ghost predicate Run(tr: Trace, f: Features) {
    match tr
    case Start(d) => Initial(d)
    case Then(before, call, d) => Run(before, f) && Steps(before.d, call, d, f)
  }

  /** The call took effect on stream ID s, and what it wrote to word 0. */
  ghost function Wrote(d: Driver, c: Call, d': Driver, f: Features, s: nat): Option<Word>
    requires Steps(d, c, d', f)
  {
    match c
    case MapCall(r, al) => if r.sid == s && Map(d, r, f, al).1 == 0 then Some(MappedWord(d', r)) else None
    case UnmapCall(sid, al) => if sid == s && Unmaps(d, sid, al) then Some(BYPASS_W0) else None
  }

  /** What the last call that took effect on s wrote. */
  ghost function LastWord(tr: Trace, f: Features, s: nat): Option<Word>
    requires Run(tr, f)
  {
    match tr
    case Start(_) => None
    case Then(before, call, d) =>
      var w := Wrote(before.d, call, d, f, s);
      if w.Some? then w else LastWord(before, f, s)
  }

  /** One call, seen at one stream ID. */
  lemma CallAt(d: Driver, c: Call, d': Driver, f: Features, s: nat)
    requires Steps(d, c, d', f)
    ensures TableOk(d'.tab)
    ensures match Wrote(d, c, d', f, s)
            case Some(w) => Word0At(d'.tab, s) == Some(w)
            case None => Word0At(d'.tab, s) == Word0At(d.tab, s) ||
                         (Word0At(d.tab, s) == None && Word0At(d'.tab, s) == Some(BYPASS_W0))
  {
    match c
    case MapCall(r, al) => MapRefinesFlat(d, r, f, al);
    case UnmapCall(sid, al) => UnmapRefinesFlat(d, sid, al);
  }

  lemma CallKeepsUnique(d: Driver, c: Call, d': Driver, f: Features)
    requires Steps(d, c, d', f) && UniqueMasters(d.masters) && BoundHasSid(d.masters)
    ensures UniqueMasters(d'.masters) && BoundHasSid(d'.masters)
  {
    match c
    case MapCall(r, al) => MapKeepsUnique(d, r, f, al);
    case UnmapCall(sid, al) => UnmapKeepsUnique(d, sid, al);
  }

  /** Over every run, word 0 found for a stream ID is what its last successful call
      wrote, or default bypass (or its group was never populated). */
  lemma {:induction false} RunRefinesFlat(tr: Trace, f: Features, s: nat)
    requires Run(tr, f)
    ensures TableOk(tr.d.tab)
    ensures match LastWord(tr, f, s)
            case Some(w) => Word0At(tr.d.tab, s) == Some(w)
            case None => Word0At(tr.d.tab, s) == None || Word0At(tr.d.tab, s) == Some(BYPASS_W0)
  {
    if tr.Then? {
      RunRefinesFlat(tr.before, f, s);
      CallAt(tr.before.d, tr.call, tr.d, f, s);
    }
  }

  /** Over every run no nonzero stream ID has two masters. */
  lemma {:induction false} RunKeepsUnique(tr: Trace, f: Features)
    requires Run(tr, f)
    ensures UniqueMasters(tr.d.masters) && BoundHasSid(tr.d.masters)
  {
    if tr.Then? {
      RunKeepsUnique(tr.before, f);
      CallKeepsUnique(tr.before.d, tr.call, tr.d, f);
    }
  }
}
