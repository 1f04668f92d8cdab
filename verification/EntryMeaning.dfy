/** What a map or unmap call leaves in the stream table and in the list of masters, told by
    the request's fields and by bits. */
module EntryMeaning {
  import opened Bits
  import opened StreamTable

  // ----- bits of the words -----

  lemma BypassWords()
    ensures Word0(Bypass, NO_MASTER) == 9 && Word1(Bypass, 0) == 0x1000_0000_0000
    ensures BYPASS_STE == [9, 0x1000_0000_0000, 0, 0, 0, 0, 0, 0]
  {
  }

  /** Stage 1, word 0: valid, configuration 5, context pointer [51:6], size, format. */
  lemma Stage1Word0(m: Master)
    ensures Stage1Bits(Word0(S1, m), m.cdtab, m.ssidBits, m.s1fmt)
  {
  }

  ghost predicate Stage1Bits(w: Word, pointer: Word, bits: Word, format: Word) {
    && w & 1 == 1 && (w >> 1) & 7 == 5 && (w >> 6) & 0x3FFF_FFFF_FFFF == (pointer >> 6) & 0x3FFF_FFFF_FFFF
    && w >> 59 == bits & 0x1F && (w >> 4) & 3 == format & 3
  }

  lemma Stage1Word1(w1: Word)
    ensures Word1(S1, w1) == 0x1000_00D6
  {
  }

  lemma Stage2Words(w1: Word)
    ensures Word0(S2, NO_MASTER) == 13 && Word1(S2, w1) == w1 | 0x9000_0000
  {
  }

  /** The translation control fields, the driver giving the start level the shareability. */
  ghost predicate Control(v: Word, t: Tcr) {
    && v & 0x3F == t.tsz & 0x3F && (v >> 6) & 3 == t.sh & 3
    && (v >> 8) & 3 == t.irgn & 3 && (v >> 10) & 3 == t.orgn & 3
    && (v >> 12) & 3 == t.sh & 3 && (v >> 14) & 3 == t.tg & 3 && (v >> 16) & 7 == t.ps & 7
  }

  lemma VtcrFields(t: Tcr)
    ensures Control(Vtcr(t), t) && Vtcr(t) >> 19 == 0
  {
  }

  lemma Stage2Place(v: Word)
    requires v >> 19 == 0
    ensures var w := Field(0, 0xFFFF, 0) | Field(v, 0x7_FFFF, 32) | 0x448_0000_0000_0000;
            (w >> 32) & 0x7_FFFF == v && w & 0xFFFF_FFFF == 0 && w >> 51 == 0x89
  {
  }

  lemma Stage2Base(base: Word)
    ensures BaseBits(base & 0xFFFF_FFFF_FFFF, base)
  {
  }

  // ----- what a successful map leaves -----

  /** The entry the map found: the old one, or default bypass in a new group. */
  ghost function Before(t: Memory, sid: nat): Ste
    requires TableOk(t)
  {
    if Populated(t, sid) then Entry(t, sid) else [9, 0x1000_0000_0000, 0, 0, 0, 0, 0, 0]
  }

  /** The node for a stream ID: the first one that carries it, or a new zeroed one. */
  ghost function NodeBefore(ms: seq<Master>, sid: nat): Master {
    var k := FindMaster(ms, sid);
    if k < |ms| then ms[k] else Master(false, 0, 0, 0, 0)
  }

  lemma MapNode(d: Driver, r: Request, f: Features, al: Allocations)
    requires TableOk(d.tab) && Map(d, r, f, al).1 == 0
    ensures var ms := Map(d, r, f, al).0.masters;
            var k := FindMaster(ms, r.sid);
            var bound := BindMaster(NodeBefore(d.masters, r.sid), r);
            && k < |ms| && ms[k] == (if StageOf(r).S1? then ContextTable(bound, r, f, al).0 else bound)
            && ms == if FindMaster(d.masters, r.sid) < |d.masters| then d.masters[FindMaster(d.masters, r.sid) := ms[k]]
                     else [ms[k]] + d.masters
  {
    MapUsesNode(d, r, f, al);
    PrepareUsesNode(d.masters, r, f, al);
    var (ms, i, ok) := Prepare(d.masters, r, f, al);
    PopulateFrame(d.tab, r.sid);
    CommitFails(ms, i, Populate(d.tab, r.sid), r, f, al);
    FindAt(MasterAt(d.masters, r.sid, al).0, Map(d, r, f, al).0.masters, i, r.sid);
  }

  lemma MapEntry(d: Driver, r: Request, f: Features, al: Allocations)
    requires TableOk(d.tab) && Map(d, r, f, al).1 == 0
    ensures var d' := Map(d, r, f, al).0;
            var k := FindMaster(d'.masters, r.sid);
            && k < |d'.masters| && TableOk(d'.tab) && Populated(d'.tab, r.sid) && |Before(d.tab, r.sid)| == STE_WORDS
            && Entry(d'.tab, r.sid) == EntryFor(StageOf(r), d'.masters[k], r, Before(d.tab, r.sid))
  {
    var d' := Map(d, r, f, al).0;
    MapTable(d, r, f, al);
    PopulateFrame(d.tab, r.sid);
    MapUsesNode(d, r, f, al);
    BypassWords();
    var t := Populate(d.tab, r.sid);
    var (ms, i) := MasterAt(d.masters, r.sid, al);
    SetEntryFrame(t, r.sid, EntryFor(StageOf(r), d'.masters[i], r, Entry(t, r.sid)));
    FindAt(ms, d'.masters, i, r.sid);
  }

  /** Bypass: valid with configuration 4, incoming shareability, nothing else. */
  lemma BypassMap(d: Driver, r: Request, f: Features, al: Allocations)
    requires TableOk(d.tab) && Map(d, r, f, al).1 == 0 && !r.stage2 && r.bypass
    ensures var t := Map(d, r, f, al).0.tab;
            && TableOk(t) && Populated(t, r.sid) && |Before(d.tab, r.sid)| == 8
            && Entry(t, r.sid) == [9, 0x1000_0000_0000, 0] + Before(d.tab, r.sid)[3..]
  {
    MapEntry(d, r, f, al);
    BypassWords();
  }

  /** Stage 2, whether bypass is asked for or not: valid with configuration 6, the page table
      base below 2^48, and the control fields. */
  lemma Stage2Map(d: Driver, r: Request, f: Features, al: Allocations)
    requires TableOk(d.tab) && Map(d, r, f, al).1 == 0 && r.stage2
    ensures var t := Map(d, r, f, al).0.tab;
            && TableOk(t) && Populated(t, r.sid) && |Before(d.tab, r.sid)| == 8
            && Stage2Entry(Entry(t, r.sid), Before(d.tab, r.sid), r)
  {
    MapEntry(d, r, f, al);
    var d' := Map(d, r, f, al).0;
    Stage2EntryFor(d'.masters[FindMaster(d'.masters, r.sid)], r, Before(d.tab, r.sid));
  }

  ghost predicate Stage2Entry(e: Ste, before: Ste, r: Request)
    requires |before| == 8
  {
    && |e| == 8 && e[0] == 13 && e[1] == before[1] | 0x9000_0000 && e[4..] == before[4..]
    && Stage2Fields(e[2], r.tcr) && BaseBits(e[3], r.pgtBase)
  }

  ghost predicate BaseBits(w: Word, base: Word) {
    w == base & 0xFFFF_FFFF_FFFF && (base < 0x1_0000_0000_0000 ==> w == base)
  }

  lemma Stage2EntryFor(m: Master, r: Request, before: Ste)
    requires |before| == 8
    ensures Stage2Entry(EntryFor(S2, m, r, before), before, r)
  {
    WordsOf(S2, m, r, before);
    Stage2Head(m, before);
    Stage2Tail(m, r, before);
  }

  lemma WordsOf(stage: Stage, m: Master, r: Request, before: Ste)
    requires |before| == 8
    ensures |EntryFor(stage, m, r, before)| == 8 && EntryFor(stage, m, r, before)[4..] == before[4..]
  {
  }

  lemma Stage2Head(m: Master, before: Ste)
    requires |before| == 8
    ensures forall r :: |EntryFor(S2, m, r, before)| == 8
              && EntryFor(S2, m, r, before)[0] == 13 && EntryFor(S2, m, r, before)[1] == before[1] | 0x9000_0000
  {
    Stage2Words(before[1]);
  }

  lemma Stage2Tail(m: Master, r: Request, before: Ste)
    requires |before| == 8
    ensures |EntryFor(S2, m, r, before)| == 8
    ensures Stage2Fields(EntryFor(S2, m, r, before)[2], r.tcr) && BaseBits(EntryFor(S2, m, r, before)[3], r.pgtBase)
  {
    Stage2Third(EntryFor(S2, m, r, before), r, before[2]);
    Stage2Fourth(EntryFor(S2, m, r, before), r, before[3]);
  }

  lemma Stage2Third(e: Ste, r: Request, w2: Word)
    requires |e| == 8 && e[2] == Word2(S2, r, w2)
    ensures Stage2Fields(e[2], r.tcr)
  {
    Stage2Word2(r, w2);
  }

  lemma Stage2Fourth(e: Ste, r: Request, w3: Word)
    requires |e| == 8 && e[3] == Word3(S2, r, w3)
    ensures BaseBits(e[3], r.pgtBase)
  {
    Stage2Base(r.pgtBase);
  }

  /** Word 2: the control fields in bits [50:32], the flags above, no VMID. */
  ghost predicate Stage2Fields(w: Word, t: Tcr) {
    Control((w >> 32) & 0x7_FFFF, t) && w & 0xFFFF_FFFF == 0 && w >> 51 == 0x89
  }

  lemma Stage2Word2(r: Request, w2: Word)
    ensures Stage2Fields(Word2(S2, r, w2), r.tcr)
  {
    VtcrFields(r.tcr);
    Stage2Place(Vtcr(r.tcr));
  }

  /** Number of substream IDs for a size field. */
  ghost function Contexts(bits: Word): nat { Pow2((bits & 0xFF) as nat) }

  /** The context table a stage 1 map uses: the node's, or a new one whose format depends on
      the size given when the node was bound. */
  ghost function BitsOf(n: Master, r: Request): Word { if n.bound then n.ssidBits else r.ssidBits }

  ghost function PointerOf(n: Master, al: Allocations): Word { if n.cdtab != 0 then n.cdtab else al.cdtab }

  ghost function FormatOf(n: Master, r: Request, f: Features): Word {
    if n.cdtab != 0 then n.s1fmt
    else if f.cd2l && Contexts(BitsOf(n, r)) > 1024 then 2 else 0
  }

  /** Stage 1: valid with configuration 5, context pointer, size and format. */
  lemma Stage1Map(d: Driver, r: Request, f: Features, al: Allocations)
    requires TableOk(d.tab) && Map(d, r, f, al).1 == 0 && !r.stage2 && !r.bypass
    ensures var t, n := Map(d, r, f, al).0.tab, NodeBefore(d.masters, r.sid);
            && TableOk(t) && Populated(t, r.sid) && |Before(d.tab, r.sid)| == 8
            && Stage1Entry(Entry(t, r.sid), Before(d.tab, r.sid), PointerOf(n, al), BitsOf(n, r), FormatOf(n, r, f))
  {
    MapEntry(d, r, f, al);
    MapNode(d, r, f, al);
    var d' := Map(d, r, f, al).0;
    var n := NodeBefore(d.masters, r.sid);
    NodeFields(n, r, f, al);
    Stage1EntryFor(d'.masters[FindMaster(d'.masters, r.sid)], r, Before(d.tab, r.sid));
  }

  ghost predicate Stage1Entry(e: Ste, before: Ste, pointer: Word, bits: Word, format: Word)
    requires |before| == 8
  {
    |e| == 8 && Stage1Bits(e[0], pointer, bits, format) && e[1] == 0x1000_00D6 && e[2..] == before[2..]
  }

  lemma Stage1EntryFor(m: Master, r: Request, before: Ste)
    requires |before| == 8
    ensures Stage1Entry(EntryFor(S1, m, r, before), before, m.cdtab, m.ssidBits, m.s1fmt)
  {
    Stage1Word0(m);
    Stage1Word1(before[1]);
    FromWords1(EntryFor(S1, m, r, before), before, Word0(S1, m), m.cdtab, m.ssidBits, m.s1fmt);
  }

  lemma FromWords1(e: Ste, before: Ste, w0: Word, pointer: Word, bits: Word, format: Word)
    requires |before| == 8 && e == [w0, 0x1000_00D6, before[2], before[3]] + before[4..]
    requires Stage1Bits(w0, pointer, bits, format)
    ensures Stage1Entry(e, before, pointer, bits, format)
  {
  }

  lemma NodeFields(n: Master, r: Request, f: Features, al: Allocations)
    ensures var m := ContextTable(BindMaster(n, r), r, f, al).0;
            m.cdtab == PointerOf(n, al) && m.ssidBits == BitsOf(n, r) && m.s1fmt == FormatOf(n, r, f)
    ensures ContextTable(BindMaster(n, r), r, f, al).1 <==>
              && PointerOf(n, al) != 0 && r.ssid < Contexts(BitsOf(n, r))
              && (FormatOf(n, r, f) == 0 || al.leaf)
  {
    BoundNode(n, r);
    ContextFields(BindMaster(n, r), r, f, al);
  }

  lemma BoundNode(n: Master, r: Request)
    ensures var b := BindMaster(n, r); b.bound && b.ssidBits == BitsOf(n, r) && b.cdtab == n.cdtab && b.s1fmt == n.s1fmt
  {
    if n.bound {
      assert BindMaster(n, r) == n;
    }
  }

  /** The same for a node that is bound. */
  lemma ContextFields(b: Master, r: Request, f: Features, al: Allocations)
    requires b.bound
    ensures var (m, ok) := ContextTable(b, r, f, al);
            && m.cdtab == PointerOf(b, al) && m.ssidBits == b.ssidBits && m.s1fmt == FormatOf(b, r, f)
            && (ok <==> PointerOf(b, al) != 0 && r.ssid < Contexts(b.ssidBits) && (FormatOf(b, r, f) == 0 || al.leaf))
  {
    SameSize(b.ssidBits);
    var size := ContextEntries(b.ssidBits);
    var (m, ok) := ContextTable(b, r, f, al);
    if b.cdtab != 0 {
      assert m == b;
    } else {
      assert m.s1fmt == if f.cd2l && size > 1024 then 2 else 0;
    }
  }

  lemma SameSize(bits: Word)
    ensures ContextEntries(bits) == Contexts(bits)
  {
  }

  /** Exactly which maps succeed. */
  lemma MapSucceeds(d: Driver, r: Request, f: Features, al: Allocations)
    requires TableOk(d.tab)
    ensures var n := NodeBefore(d.masters, r.sid);
            Map(d, r, f, al).1 == 0 <==>
              && (FindMaster(d.masters, r.sid) < |d.masters| || (al.node && al.master))
              && (r.stage2 ==> f.s2p) && (!r.stage2 && !r.bypass ==> f.s1p)
              && r.sid < Sids(d.tab) && (Populated(d.tab, r.sid) || al.group)
              && (!r.stage2 && !r.bypass ==>
                    && PointerOf(n, al) != 0 && r.ssid < Contexts(BitsOf(n, r))
                    && (FormatOf(n, r, f) == 0 || al.leaf))
  {
    PrepareUsesNode(d.masters, r, f, al);
    var (ms, i, ok) := Prepare(d.masters, r, f, al);
    NodeFields(NodeBefore(d.masters, r.sid), r, f, al);
    if ok && r.sid < Sids(d.tab) && (Populated(d.tab, r.sid) || al.group) {
      PopulateFrame(d.tab, r.sid);
      CommitFails(ms, i, Populate(d.tab, r.sid), r, f, al);
    }
  }

  // ----- what an unmap leaves -----

  /** Takes effect for a bound node with its stream ID in range, and then leaves default bypass
      and a zeroed node. */
  lemma UnmapMeans(d: Driver, sid: nat, al: Allocations)
    requires TableOk(d.tab) && d.tab.Linear?
    ensures var d', k := Unmap(d, sid, al), FindMaster(d.masters, sid);
            && TableOk(d'.tab)
            && if k < |d.masters| && d.masters[k].bound && sid < |d.tab.stes| then
                 && d'.masters == d.masters[k := Master(false, 0, 0, 0, 0)]
                 && d'.tab == Linear(d.tab.stes[sid := [9, 0x1000_0000_0000, 0] + d.tab.stes[sid][3..]])
               else d'.tab == d.tab
  {
    BypassWords();
  }
}
