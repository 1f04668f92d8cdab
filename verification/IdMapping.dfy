/** IORT-style ID mapping: requester ID to stream ID to device ID, and the second
    walker that only looks for the SMMU in front of a root complex. */
module IdMapping {
  import opened Wrappers

  const WORD32: nat := 0x1_0000_0000
  const NO_STREAM: nat := 0xFFFF_FFFF
  const NOT_FOUND: nat := 0xFFFF_FFFF

  /** Input IDs base .. base + count map to output IDs from out on, at the block `ref`. */
  datatype IdMap = IdMap(base: nat, count: nat, out: nat, ref: nat)

  datatype Kind = ItsGroup | RootComplex | Smmu | SmmuV3 | OtherNode

  datatype Block = Block(kind: Kind, segment: nat, maps: seq<IdMap>, smmuBase: nat, itsId: nat)

  /** The blocks in table order, and what lies at each byte offset references use. */
  datatype Table = Table(blocks: seq<Block>, at: map<nat, Block>)

  function Resolve(t: Table, ref: nat): Block {
    if ref in t.at then t.at[ref] else Block(OtherNode, 0, [], 0, 0)
  }

  predicate IsSmmu(b: Block) { b.kind.Smmu? || b.kind.SmmuV3? }

  /** The range test, with the 32-bit sum of the source. */
  predicate Contains(m: IdMap, id: nat) { m.base <= id <= (m.base + m.count) % WORD32 }

  /** The affine map, in 32 bits. */
  function Translate(m: IdMap, id: nat): nat
    requires m.base <= id
  {
    (id - m.base + m.out) % WORD32
  }

  // ----- positions in the table -----

  /** None of the first n maps takes the ID. */
  ghost predicate MissesUpTo(ms: seq<IdMap>, id: nat, n: nat)
    requires n <= |ms|
  {
    forall j :: 0 <= j < n ==> !Contains(ms[j], id)
  }

  /** Map k is the first one that takes the ID. */
  ghost predicate FirstIn(ms: seq<IdMap>, id: nat, k: int) {
    0 <= k < |ms| && Contains(ms[k], id) && MissesUpTo(ms, id, k)
  }

  /** A root complex of the segment with a map for the requester. */
  ghost predicate Serves(b: Block, segment: nat, rid: nat) {
    b.kind.RootComplex? && b.segment == segment && !MissesUpTo(b.maps, rid, |b.maps|)
  }

  /** None of the blocks from..to serves the requester. */
  ghost predicate NoneServes(bs: seq<Block>, segment: nat, rid: nat, from: nat, to: nat)
    requires to <= |bs|
  {
    forall j :: from <= j < to ==> !Serves(bs[j], segment, rid)
  }

  /** Among the first n blocks, block i is the last that serves, through its map k. */
  ghost predicate LastServing(bs: seq<Block>, segment: nat, rid: nat, n: nat, i: int, k: int)
    requires n <= |bs|
  {
    && 0 <= i < n && bs[i].kind.RootComplex? && bs[i].segment == segment
    && FirstIn(bs[i].maps, rid, k) && NoneServes(bs, segment, rid, i + 1, n)
  }

  lemma FirstInUnique(ms: seq<IdMap>, id: nat, j: int, k: int)
    requires FirstIn(ms, id, j) && FirstIn(ms, id, k)
    ensures j == k
  {
  }

  lemma LastServingUnique(bs: seq<Block>, segment: nat, rid: nat, n: nat, i: int, k: int, i': int, k': int)
    requires n <= |bs| && LastServing(bs, segment, rid, n, i, k) && LastServing(bs, segment, rid, n, i', k')
    ensures i == i' && k == k'
  {
    assert Serves(bs[i], segment, rid) && Serves(bs[i'], segment, rid);
    if i == i' { FirstInUnique(bs[i].maps, rid, k, k'); }
  }

  // ----- val_iovirt_get_device_info -----

  datatype DeviceInfo = DeviceInfo(deviceId: nat, streamId: nat, itsId: nat)

  /** What the device walker may answer once block i, map k gave it an ID. */
  ghost predicate DeviceAfter(t: Table, m: IdMap, rid: nat, r: Option<DeviceInfo>)
    requires m.base <= rid
  {
    var b, id := Resolve(t, m.ref), Translate(m, rid);
    if b.kind.ItsGroup? then r == Some(DeviceInfo(id, NO_STREAM, b.itsId))
    else if IsSmmu(b) then
      || (MissesUpTo(b.maps, id, |b.maps|) && r == None)
      || (exists n :: FirstIn(b.maps, id, n) && r == Some(ThroughMap(t, b.maps[n], id)))
    else r == None
  }

  function ThroughMap(t: Table, m: IdMap, sid: nat): DeviceInfo
    requires m.base <= sid
  {
    var target := Resolve(t, m.ref);
    DeviceInfo(Translate(m, sid), sid, if target.kind.ItsGroup? then target.itsId else 0)
  }

  ghost predicate DeviceAnswer(t: Table, segment: nat, rid: nat, r: Option<DeviceInfo>) {
    var bs := t.blocks;
    || (NoneServes(bs, segment, rid, 0, |bs|) && r == None)
    || (exists i, k :: LastServing(bs, segment, rid, |bs|, i, k) && DeviceAfter(t, bs[i].maps[k], rid, r))
  }

  method GetDeviceInfo(t: Table, rid: nat, segment: nat) returns (r: Option<DeviceInfo>)
    ensures DeviceAnswer(t, segment, rid, r)
  {
    var bs := t.blocks;
    var id, oref, mappingFound := 0, 0, false;
    ghost var at, via := 0, 0;
    var i := 0;
    while i < |bs|
      invariant i <= |bs|
      invariant !mappingFound ==> NoneServes(bs, segment, rid, 0, i)
      invariant mappingFound ==> LastServing(bs, segment, rid, i, at, via)
      invariant mappingFound ==> id == Translate(bs[at].maps[via], rid) && oref == bs[at].maps[via].ref
    {
      if bs[i].kind.RootComplex? && bs[i].segment == segment {
        var j := 0;
        while j < |bs[i].maps|
          invariant j <= |bs[i].maps| && MissesUpTo(bs[i].maps, rid, j)
        {
          var m := bs[i].maps[j];
          if rid >= m.base && rid <= (m.base + m.count) % WORD32 {
            id, oref, mappingFound := (rid - m.base + m.out) % WORD32, m.ref, true;
            at, via := i, j;
            break;
          }
          j := j + 1;
        }
      }
      i := i + 1;
    }
    if !mappingFound { return None; }
    ghost var rc := bs[at].maps[via];
    r := DeviceThrough(t, oref, id, rc, rid);
    assert LastServing(bs, segment, rid, |bs|, at, via);
  }

  /** The second half of the device walker: the block the root complex refers to. */
  method DeviceThrough(t: Table, oref: nat, id: nat, ghost rc: IdMap, ghost rid: nat) returns (r: Option<DeviceInfo>)
    requires rc.base <= rid && oref == rc.ref && id == Translate(rc, rid)
    ensures DeviceAfter(t, rc, rid, r)
  {
    var block := Resolve(t, oref);
    if block.kind.ItsGroup? {
      return Some(DeviceInfo(id, NO_STREAM, block.itsId));
    } else if IsSmmu(block) {
      var sid := id;
      var did, its, oref2, mappingFound := 0, 0, oref, false;
      var i := 0;
      while i < |block.maps|
        invariant i <= |block.maps| && MissesUpTo(block.maps, sid, i) && !mappingFound && oref2 == oref
      {
        var m := block.maps[i];
        if sid >= m.base && sid <= (m.base + m.count) % WORD32 {
          did, oref2, mappingFound := (sid - m.base + m.out) % WORD32, m.ref, true;
          break;
        }
        i := i + 1;
      }
      var target := Resolve(t, oref2);
      if target.kind.ItsGroup? { its := target.itsId; }
      if !mappingFound { return None; }
      assert FirstIn(block.maps, sid, i);
      return Some(DeviceInfo(did, sid, its));
    }
    return None;
  }

  // ----- pal_iovirt_get_rc_smmu_base -----

  /** What the base walker may answer once block i, map k gave it an ID. */
  ghost predicate BaseAfter(t: Table, m: IdMap, rid: nat, base: nat)
    requires m.base <= rid
  {
    var b, sid := Resolve(t, m.ref), Translate(m, rid);
    || ((!IsSmmu(b) || MissesUpTo(b.maps, sid, |b.maps|)) && base == 0)
    || (IsSmmu(b) && base == b.smmuBase && exists n :: FirstIn(b.maps, sid, n))
  }

  ghost predicate BaseAnswer(t: Table, segment: nat, rid: nat, base: nat) {
    var bs := t.blocks;
    || (NoneServes(bs, segment, rid, 0, |bs|) && base == NOT_FOUND)
    || (exists i, k :: LastServing(bs, segment, rid, |bs|, i, k) && BaseAfter(t, bs[i].maps[k], rid, base))
  }

  method GetRcSmmuBase(t: Table, segment: nat, rid: nat) returns (base: nat)
    ensures BaseAnswer(t, segment, rid, base)
  {
    var bs := t.blocks;
    var id, oref, mappingFound := 0, 0, false;
    ghost var at, via := 0, 0;
    var i := 0;
    while i < |bs|
      invariant i <= |bs|
      invariant !mappingFound ==> NoneServes(bs, segment, rid, 0, i)
      invariant mappingFound ==> LastServing(bs, segment, rid, i, at, via)
      invariant mappingFound ==> id == Translate(bs[at].maps[via], rid) && oref == bs[at].maps[via].ref
    {
      if bs[i].kind.RootComplex? && bs[i].segment == segment {
        var j := 0;
        while j < |bs[i].maps|
          invariant j <= |bs[i].maps| && MissesUpTo(bs[i].maps, rid, j)
        {
          var m := bs[i].maps[j];
          if rid >= m.base && rid <= (m.base + m.count) % WORD32 {
            id, oref, mappingFound := (rid - m.base + m.out) % WORD32, m.ref, true;
            at, via := i, j;
            break;
          }
          j := j + 1;
        }
      }
      i := i + 1;
    }
    if !mappingFound { return NOT_FOUND; }
    ghost var rc := bs[at].maps[via];
    base := BaseThrough(t, oref, id, rc, rid);
    assert LastServing(bs, segment, rid, |bs|, at, via);
  }

  /** The second half of the base walker. */
  method BaseThrough(t: Table, oref: nat, id: nat, ghost rc: IdMap, ghost rid: nat) returns (base: nat)
    requires rc.base <= rid && oref == rc.ref && id == Translate(rc, rid)
    ensures BaseAfter(t, rc, rid, base)
  {
    var block := Resolve(t, oref);
    if IsSmmu(block) {
      var i := 0;
      while i < |block.maps|
        invariant i <= |block.maps| && MissesUpTo(block.maps, id, i)
      {
        var m := block.maps[i];
        if id >= m.base && id <= (m.base + m.count) % WORD32 {
          assert FirstIn(block.maps, id, i);
          return block.smmuBase;
        }
        i := i + 1;
      }
    }
    return 0;
  }

  // ----- agreement -----

  /** The requester goes through map k of root complex i and map n of the SMMU that map refers to. */
  ghost predicate Through(t: Table, segment: nat, rid: nat, i: int, k: int, n: int) {
    && LastServing(t.blocks, segment, rid, |t.blocks|, i, k)
    && var m := t.blocks[i].maps[k];
       IsSmmu(Resolve(t, m.ref)) && FirstIn(Resolve(t, m.ref).maps, Translate(m, rid), n)
  }

  /** The device walker's answer is about the one map it can have selected. */
  lemma DeviceVia(t: Table, segment: nat, rid: nat, r: Option<DeviceInfo>, i: int, k: int)
    requires DeviceAnswer(t, segment, rid, r) && LastServing(t.blocks, segment, rid, |t.blocks|, i, k)
    ensures DeviceAfter(t, t.blocks[i].maps[k], rid, r)
  {
    var bs := t.blocks;
    assert Serves(bs[i], segment, rid);
    var i', k' :| LastServing(bs, segment, rid, |bs|, i', k') && DeviceAfter(t, bs[i'].maps[k'], rid, r);
    LastServingUnique(bs, segment, rid, |bs|, i, k, i', k');
  }

  /** So is the base walker's. */
  lemma BaseVia(t: Table, segment: nat, rid: nat, base: nat, i: int, k: int)
    requires BaseAnswer(t, segment, rid, base) && LastServing(t.blocks, segment, rid, |t.blocks|, i, k)
    ensures BaseAfter(t, t.blocks[i].maps[k], rid, base)
  {
    var bs := t.blocks;
    assert Serves(bs[i], segment, rid);
    var i', k' :| LastServing(bs, segment, rid, |bs|, i', k') && BaseAfter(t, bs[i'].maps[k'], rid, base);
    LastServingUnique(bs, segment, rid, |bs|, i, k, i', k');
  }

  /** On the way through an SMMU the two answers are about that SMMU: its base, and the
      composition of the two maps. */
  lemma AnswersThrough(t: Table, segment: nat, rid: nat, r: Option<DeviceInfo>, base: nat, i: int, k: int, n: int)
    requires DeviceAnswer(t, segment, rid, r) && BaseAnswer(t, segment, rid, base)
    requires Through(t, segment, rid, i, k, n)
    ensures var m := t.blocks[i].maps[k];
            && base == Resolve(t, m.ref).smmuBase
            && r == Some(ThroughMap(t, Resolve(t, m.ref).maps[n], Translate(m, rid)))
  {
    DeviceVia(t, segment, rid, r, i, k);
    BaseVia(t, segment, rid, base, i, k);
    var m := t.blocks[i].maps[k];
    var b, id := Resolve(t, m.ref), Translate(m, rid);
    assert !MissesUpTo(b.maps, id, |b.maps|);
    var n' :| FirstIn(b.maps, id, n') && r == Some(ThroughMap(t, b.maps[n'], id));
    FirstInUnique(b.maps, id, n, n');
  }

  /** Without an SMMU on the way, neither answer looks as if there was one. */
  lemma AnswersBypass(t: Table, segment: nat, rid: nat, r: Option<DeviceInfo>, base: nat)
    requires DeviceAnswer(t, segment, rid, r) && BaseAnswer(t, segment, rid, base)
    requires forall i, k, n :: !Through(t, segment, rid, i, k, n)
    ensures !Streams(r) && !Based(base)
    ensures base == NOT_FOUND <==> NoneServes(t.blocks, segment, rid, 0, |t.blocks|)
    ensures base == NOT_FOUND ==> r == None
  {
    var bs := t.blocks;
    if i, k :| LastServing(bs, segment, rid, |bs|, i, k) {
      assert Serves(bs[i], segment, rid);
      DeviceVia(t, segment, rid, r, i, k);
      BaseVia(t, segment, rid, base, i, k);
      var m := bs[i].maps[k];
      forall n | IsSmmu(Resolve(t, m.ref)) ensures !FirstIn(Resolve(t, m.ref).maps, Translate(m, rid), n) {
        assert !Through(t, segment, rid, i, k, n);
      }
    }
  }

  /** A map takes the IDs from its base to base + count, the sum in 32 bits. */
  ghost predicate Takes(m: IdMap, id: nat) { m.base <= id && id <= (m.base + m.count) % 0x1_0000_0000 }

  /** The selected root-complex map, in numbers: the last block of the segment that takes the
      requester, and its first map that does. */
  lemma SelectionInNumbers(bs: seq<Block>, segment: nat, rid: nat, i: int, k: int)
    ensures LastServing(bs, segment, rid, |bs|, i, k) <==>
              && 0 <= i < |bs| && bs[i].kind.RootComplex? && bs[i].segment == segment
              && 0 <= k < |bs[i].maps| && Takes(bs[i].maps[k], rid)
              && (forall j :: 0 <= j < k ==> !Takes(bs[i].maps[j], rid))
              && (forall j, l :: i < j < |bs| && 0 <= l < |bs[j].maps| && Takes(bs[j].maps[l], rid) ==>
                    !bs[j].kind.RootComplex? || bs[j].segment != segment)
  {
    if LastServing(bs, segment, rid, |bs|, i, k) {
      forall j, l | i < j < |bs| && 0 <= l < |bs[j].maps| && Takes(bs[j].maps[l], rid)
        ensures !bs[j].kind.RootComplex? || bs[j].segment != segment
      {
        assert !Serves(bs[j], segment, rid);
      }
    }
  }

  /** The device walker's answers in numbers: straight to an ITS group, or nowhere. */
  lemma DirectInNumbers(t: Table, segment: nat, rid: nat, r: Option<DeviceInfo>, i: int, k: int)
    requires DeviceAnswer(t, segment, rid, r) && LastServing(t.blocks, segment, rid, |t.blocks|, i, k)
    ensures var m := t.blocks[i].maps[k];
            var b, id := Resolve(t, m.ref), (rid - m.base + m.out) % 0x1_0000_0000;
            && (b.kind.ItsGroup? ==> r == Some(DeviceInfo(id, 0xFFFF_FFFF, b.itsId)))
            && (b.kind.RootComplex? || b.kind.OtherNode? ==> r == None)
            && (b.kind.Smmu? || b.kind.SmmuV3? ==>
                  ((forall j :: 0 <= j < |b.maps| ==> !Takes(b.maps[j], id)) ==> r == None))
  {
    DeviceVia(t, segment, rid, r, i, k);
  }

  /** The base walker's answers in numbers. */
  lemma BaseInNumbers(t: Table, segment: nat, rid: nat, base: nat)
    requires BaseAnswer(t, segment, rid, base)
    ensures (forall i, k :: !LastServing(t.blocks, segment, rid, |t.blocks|, i, k)) ==> base == 0xFFFF_FFFF
    ensures forall i, k :: LastServing(t.blocks, segment, rid, |t.blocks|, i, k) ==>
              var m := t.blocks[i].maps[k];
              var b, id := Resolve(t, m.ref), (rid - m.base + m.out) % 0x1_0000_0000;
              base == if (b.kind.Smmu? || b.kind.SmmuV3?) && (exists j :: 0 <= j < |b.maps| && Takes(b.maps[j], id))
                      then b.smmuBase else 0
  {
    forall i, k | LastServing(t.blocks, segment, rid, |t.blocks|, i, k)
      ensures var m := t.blocks[i].maps[k];
              var b, id := Resolve(t, m.ref), (rid - m.base + m.out) % 0x1_0000_0000;
              base == if (b.kind.Smmu? || b.kind.SmmuV3?) && (exists j :: 0 <= j < |b.maps| && Takes(b.maps[j], id))
                      then b.smmuBase else 0
    {
      BaseVia(t, segment, rid, base, i, k);
      var m := t.blocks[i].maps[k];
      BaseOfBlock(Resolve(t, m.ref), Translate(m, rid));
    }
  }

  lemma BaseOfBlock(b: Block, id: nat)
    ensures MissesUpTo(b.maps, id, |b.maps|) <==> !exists j :: 0 <= j < |b.maps| && Takes(b.maps[j], id)
    ensures (exists n :: FirstIn(b.maps, id, n)) ==> !MissesUpTo(b.maps, id, |b.maps|)
  {
    if j :| 0 <= j < |b.maps| && Takes(b.maps[j], id) { assert Contains(b.maps[j], id); }
  }

  /** Through map n of an SMMU: both maps applied, each in 32 bits. */
  lemma ThroughInNumbers(t: Table, segment: nat, rid: nat, r: Option<DeviceInfo>, i: int, k: int, n: int)
    requires DeviceAnswer(t, segment, rid, r) && LastServing(t.blocks, segment, rid, |t.blocks|, i, k)
    requires var b := Resolve(t, t.blocks[i].maps[k].ref);
             (b.kind.Smmu? || b.kind.SmmuV3?) && FirstTakes(b.maps, Shifted(t.blocks[i].maps[k], rid), n)
    ensures var id := Shifted(t.blocks[i].maps[k], rid);
            var s := Resolve(t, t.blocks[i].maps[k].ref).maps[n];
            var target := Resolve(t, s.ref);
            r == Some(DeviceInfo(Shifted(s, id), id, if target.kind.ItsGroup? then target.itsId else 0))
  {
    var m := t.blocks[i].maps[k];
    ShiftedIs(m, rid);
    FirstTaker(Resolve(t, m.ref).maps, Translate(m, rid), n);
    DeviceOf(t, segment, rid, r, i, k, n);
    ShiftedIs(Resolve(t, m.ref).maps[n], Translate(m, rid));
  }

  /** The ID moved from a map's input range to its output range, in 32 bits. */
  ghost function Shifted(m: IdMap, id: nat): nat { (id - m.base + m.out) % 0x1_0000_0000 }

  lemma ShiftedIs(m: IdMap, id: nat)
    requires m.base <= id
    ensures Shifted(m, id) == Translate(m, id)
  {
  }

  ghost predicate FirstTakes(ms: seq<IdMap>, id: nat, n: int) {
    0 <= n < |ms| && Takes(ms[n], id) && forall j :: 0 <= j < n ==> !Takes(ms[j], id)
  }

  lemma FirstTaker(ms: seq<IdMap>, id: nat, n: int)
    ensures FirstIn(ms, id, n) <==> FirstTakes(ms, id, n)
  {
  }

  /** What a caller can tell from the device walker's answer, and from the base walker's. */
  predicate Streams(r: Option<DeviceInfo>) { r.Some? && r.value.streamId != NO_STREAM }
  predicate Based(base: nat) { base != 0 && base != NOT_FOUND }

  /** A way through an SMMU that exactly one of the two answers hides: the stream ID is all
      ones, or the SMMU's base is one of the two failure values, but not both. */
  ghost predicate Ambiguous(t: Table, segment: nat, rid: nat) {
    exists i, k, n :: Through(t, segment, rid, i, k, n) && OneSided(t, t.blocks[i].maps[k], rid)
  }

  ghost predicate OneSided(t: Table, m: IdMap, rid: nat)
    requires m.base <= rid
  {
    (Translate(m, rid) == NO_STREAM) != !Based(Resolve(t, m.ref).smmuBase)
  }

  ghost predicate BehindSmmu(t: Table, segment: nat, rid: nat) {
    exists i, k, n :: Through(t, segment, rid, i, k, n)
  }

  /** Main theorem: the two returned values agree on whether there is an SMMU in front of the
      requester exactly when the table is not ambiguous for it. Neither ever invents an SMMU. */
  lemma WalkersAgree(t: Table, segment: nat, rid: nat, r: Option<DeviceInfo>, base: nat)
    requires DeviceAnswer(t, segment, rid, r) && BaseAnswer(t, segment, rid, base)
    ensures (Streams(r) <==> Based(base)) <==> !Ambiguous(t, segment, rid)
    ensures Streams(r) || Based(base) ==> BehindSmmu(t, segment, rid)
  {
    if i, k, n :| Through(t, segment, rid, i, k, n) {
      AnswersThrough(t, segment, rid, r, base, i, k, n);
      forall i', k', n' | Through(t, segment, rid, i', k', n') ensures i' == i && k' == k {
        LastServingUnique(t.blocks, segment, rid, |t.blocks|, i, k, i', k');
      }
    } else {
      AnswersBypass(t, segment, rid, r, base);
    }
  }

  const PLAIN_MAP := IdMap(0, 15, 0, 64)
  const BASELESS := Table([Block(RootComplex, 0, [PLAIN_MAP], 0, 0)], map[64 := Block(SmmuV3, 0, [PLAIN_MAP], 0, 0)])

  /** An SMMU registered at base 0: the device walker reports a stream, the base walker no SMMU. */
  lemma BaseZeroIsAmbiguous(r: Option<DeviceInfo>, base: nat)
    requires DeviceAnswer(BASELESS, 0, 3, r) && BaseAnswer(BASELESS, 0, 3, base)
    ensures Streams(r) && !Based(base) && r.value.streamId == 3
  {
    assert Contains(PLAIN_MAP, 3);
    assert LastServing(BASELESS.blocks, 0, 3, 1, 0, 0);
    assert Through(BASELESS, 0, 3, 0, 0, 0);
    AnswersThrough(BASELESS, 0, 3, r, base, 0, 0, 0);
  }

  // ----- injectivity -----

  /** Ranges stay inside 32 bits. */
  ghost predicate Plain(m: IdMap) { m.base + m.count < WORD32 && m.out + m.count < WORD32 }

  /** The output ranges of two maps have no ID in common. */
  ghost predicate OutputsApart(m: IdMap, n: IdMap) { m.out + m.count < n.out || n.out + n.count < m.out }

  ghost predicate CleanMaps(ms: seq<IdMap>) {
    && (forall i :: 0 <= i < |ms| ==> Plain(ms[i]))
    && (forall i, j :: 0 <= i < j < |ms| ==> OutputsApart(ms[i], ms[j]))
  }

  /** With clean maps, first-match translation never sends two IDs to one. */
  lemma MatchIsInjective(ms: seq<IdMap>, x: nat, y: nat, i: int, j: int)
    requires CleanMaps(ms) && x != y && FirstIn(ms, x, i) && FirstIn(ms, y, j)
    ensures Translate(ms[i], x) != Translate(ms[j], y)
  {
    TranslatePlain(ms[i], x);
    TranslatePlain(ms[j], y);
    assert i < j ==> OutputsApart(ms[i], ms[j]);
    assert j < i ==> OutputsApart(ms[j], ms[i]);
  }

  lemma TranslatePlain(m: IdMap, id: nat)
    requires Plain(m) && Contains(m, id)
    ensures Translate(m, id) == id - m.base + m.out && m.out <= Translate(m, id) <= m.out + m.count
  {
    assert (m.base + m.count) % WORD32 == m.base + m.count;
  }

  /** Requesters served by one root-complex block and one SMMU, clean maps in both: the
      device walker answers them with distinct stream IDs and distinct device IDs. */
  lemma DeviceIdsInjective(t: Table, segment: nat, x: nat, y: nat, rx: Option<DeviceInfo>, ry: Option<DeviceInfo>,
                           i: int, k: int, n: int, k': int, n': int)
    requires DeviceAnswer(t, segment, x, rx) && DeviceAnswer(t, segment, y, ry) && x != y
    requires Through(t, segment, x, i, k, n) && Through(t, segment, y, i, k', n') && CleanMaps(t.blocks[i].maps)
    requires Resolve(t, t.blocks[i].maps[k].ref) == Resolve(t, t.blocks[i].maps[k'].ref)
    requires CleanMaps(Resolve(t, t.blocks[i].maps[k].ref).maps)
    ensures rx.Some? && ry.Some?
    ensures rx.value.streamId != ry.value.streamId && rx.value.deviceId != ry.value.deviceId
  {
    DeviceOf(t, segment, x, rx, i, k, n);
    DeviceOf(t, segment, y, ry, i, k', n');
    var m, m' := t.blocks[i].maps[k], t.blocks[i].maps[k'];
    MatchIsInjective(t.blocks[i].maps, x, y, k, k');
    MatchIsInjective(Resolve(t, m.ref).maps, Translate(m, x), Translate(m', y), n, n');
  }

  lemma DeviceOf(t: Table, segment: nat, rid: nat, r: Option<DeviceInfo>, i: int, k: int, n: int)
    requires DeviceAnswer(t, segment, rid, r) && Through(t, segment, rid, i, k, n)
    ensures var m := t.blocks[i].maps[k]; r == Some(ThroughMap(t, Resolve(t, m.ref).maps[n], Translate(m, rid)))
  {
    var m := t.blocks[i].maps[k];
    AnswersThrough(t, segment, rid, r, Resolve(t, m.ref).smmuBase, i, k, n);
  }
}
