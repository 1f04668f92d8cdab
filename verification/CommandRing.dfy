/** The wrap-bit command ring: indices of n + 1 bits over 2^n slots. */
module CommandRing {
  import opened Bits

  datatype Cmd = CfgiSte(sid: nat) | CfgiAll | TlbiEl2All | TlbiNsnhAll | Sync

  /** Ring memory with the producer and consumer registers. */
  datatype Ring = Ring(n: nat, slots: seq<Cmd>, prod: nat, cons: nat)

  predicate WellFormed(q: Ring) {
    |q.slots| == Pow2(q.n) && q.prod < 2 * Pow2(q.n) && q.cons < 2 * Pow2(q.n)
  }

  // ----- the tests as the driver writes them -----

  /** (prod + 1) & ((1 << (n + 1)) - 1) */
  function IncProd(n: nat, prod: nat): nat { And(prod + 1, Pow2(n + 1) - 1) }

  /** Index bits and wrap bit. */
  function IndexBits(n: nat, p: nat): nat { And(p, Pow2(n) - 1) }
  function WrapBit(n: nat, p: nat): nat { And(p, Pow2(n)) }

  predicate QueueFull(n: nat, prod: nat, cons: nat) {
    IndexBits(n, prod) == IndexBits(n, cons) && WrapBit(n, prod) != WrapBit(n, cons)
  }

  predicate QueueEmpty(n: nat, prod: nat, cons: nat) {
    IndexBits(n, prod) == IndexBits(n, cons) && WrapBit(n, prod) == WrapBit(n, cons)
  }

  // ----- what they mean -----

  /** Number of commands written and not yet consumed. */
  function Occupancy(q: Ring): nat
    requires WellFormed(q)
  {
    if q.prod >= q.cons then q.prod - q.cons else q.prod + 2 * Pow2(q.n) - q.cons
  }

  function Slot(n: nat, p: nat): nat { if p < Pow2(n) then p else if p < 2 * Pow2(n) then p - Pow2(n) else 0 }

  function Next(n: nat, p: nat): nat { if p + 1 == 2 * Pow2(n) then 0 else p + 1 }

  /** x & (2^n - 1) for x up to 2^(n + 1). */
  lemma LowBits(n: nat, x: nat)
    requires x <= 2 * Pow2(n)
    ensures And(x, Pow2(n) - 1) == if x < Pow2(n) then x else if x < 2 * Pow2(n) then x - Pow2(n) else 0
  {
    var size := Pow2(n);
    var q := if x < size then 0 else if x < 2 * size then 1 else 2;
    ShiftIsProduct(q, n);
    AndLow(x, n, size - 1, q, x - q * size);
  }

  lemma IndexFacts(n: nat, p: nat)
    requires p < 2 * Pow2(n)
    ensures IndexBits(n, p) == Slot(n, p) < Pow2(n)
    ensures IncProd(n, p) == Next(n, p) < 2 * Pow2(n)
    ensures WrapBit(n, p) == if p < Pow2(n) then 0 else Pow2(n)
  {
    LowBits(n, p);
    NextFacts(n, p);
    WrapFacts(n, p);
  }

  lemma NextFacts(n: nat, p: nat)
    requires p < 2 * Pow2(n)
    ensures IncProd(n, p) == Next(n, p)
  {
    LowBits(n + 1, p + 1);
  }

  lemma WrapFacts(n: nat, p: nat)
    requires p < 2 * Pow2(n)
    ensures WrapBit(n, p) == if p < Pow2(n) then 0 else Pow2(n)
  {
    AndTop(p, n, Pow2(n));
  }

  /** "Full" is occupancy 2^n, "empty" is occupancy 0. */
  lemma FullAndEmpty(q: Ring)
    requires WellFormed(q)
    ensures QueueFull(q.n, q.prod, q.cons) <==> Occupancy(q) == Pow2(q.n)
    ensures QueueEmpty(q.n, q.prod, q.cons) <==> Occupancy(q) == 0
  {
    IndexFacts(q.n, q.prod);
    IndexFacts(q.n, q.cons);
  }

  /** k commands from position p on. */
  function From(q: Ring, p: nat, k: nat): seq<Cmd>
    requires WellFormed(q) && p < 2 * Pow2(q.n)
    decreases k
  {
    if k == 0 then [] else [q.slots[Slot(q.n, p)]] + From(q, Next(q.n, p), k - 1)
  }

  function Pending(q: Ring): seq<Cmd>
    requires WellFormed(q)
  {
    From(q, q.cons, Occupancy(q))
  }

  // ----- producer and consumer steps -----

  /** The driver's write of one command, without interference. */
  function Produce(q: Ring, c: Cmd): Ring
    requires WellFormed(q)
  {
    q.(slots := q.slots[Slot(q.n, q.prod) := c], prod := Next(q.n, q.prod))
  }

  /** The same with the masks the driver uses. */
  lemma ProduceMasked(q: Ring, c: Cmd)
    requires WellFormed(q)
    ensures IndexBits(q.n, q.prod) < |q.slots|
    ensures Produce(q, c) == q.(slots := q.slots[IndexBits(q.n, q.prod) := c], prod := IncProd(q.n, q.prod))
  {
    IndexFacts(q.n, q.prod);
  }

  function Consume(q: Ring): Ring
    requires WellFormed(q)
  {
    q.(cons := Next(q.n, q.cons))
  }

  lemma {:induction false} FromLength(q: Ring, p: nat, k: nat)
    requires WellFormed(q) && p < 2 * Pow2(q.n)
    ensures |From(q, p, k)| == k
    decreases k
  {
    if k > 0 { FromLength(q, Next(q.n, p), k - 1); }
  }

  /** Distance from index p up to index r. */
  function Gap(n: nat, p: nat, r: nat): int { if r >= p then r - p else r + 2 * Pow2(n) - p }

  /** A write at r, less than a ring ahead, does not touch the k commands from p on. */
  lemma {:induction false} WriteAhead(q: Ring, p: nat, k: nat, r: nat, c: Cmd)
    requires WellFormed(q) && p < 2 * Pow2(q.n) && r < 2 * Pow2(q.n)
    requires k <= Gap(q.n, p, r) < Pow2(q.n)
    ensures From(q.(slots := q.slots[Slot(q.n, r) := c]), p, k) == From(q, p, k)
    decreases k
  {
    if k > 0 {
      WriteAhead(q, Next(q.n, p), k - 1, r, c);
    }
  }

  lemma {:induction false} FromExtend(q: Ring, p: nat, k: nat, r: nat)
    requires WellFormed(q) && p < 2 * Pow2(q.n) && r < 2 * Pow2(q.n) && Gap(q.n, p, r) == k
    ensures From(q, p, k + 1) == From(q, p, k) + [q.slots[Slot(q.n, r)]]
    decreases k
  {
    if k > 0 {
      FromExtend(q, Next(q.n, p), k - 1, r);
    } else {
      assert From(q, p, 1) == [q.slots[Slot(q.n, p)]] + From(q, Next(q.n, p), 0);
    }
  }

  /** From ignores the two registers. */
  lemma {:induction false} FromRegisters(q: Ring, prod: nat, cons: nat, p: nat, k: nat)
    requires WellFormed(q) && WellFormed(q.(prod := prod, cons := cons)) && p < 2 * Pow2(q.n)
    ensures From(q.(prod := prod, cons := cons), p, k) == From(q, p, k)
    decreases k
  {
    if k > 0 { FromRegisters(q, prod, cons, Next(q.n, p), k - 1); }
  }

  /** Filling the slot at prod, before prod moves, is invisible to the consumer. */
  lemma FillSlot(q: Ring, c: Cmd)
    requires WellFormed(q) && Occupancy(q) < Pow2(q.n)
    ensures Slot(q.n, q.prod) < |q.slots|
    ensures var w := q.(slots := q.slots[Slot(q.n, q.prod) := c]);
            WellFormed(w) && Pending(w) == Pending(q) && Occupancy(w) == Occupancy(q)
  {
    IndexFacts(q.n, q.prod);
    WriteAhead(q, q.cons, Occupancy(q), q.prod, c);
  }

  /** Moving prod makes the filled slot the newest pending command. */
  lemma Publish(q: Ring)
    requires WellFormed(q) && Occupancy(q) < Pow2(q.n)
    ensures var w := q.(prod := IncProd(q.n, q.prod));
            && WellFormed(w) && Occupancy(w) == Occupancy(q) + 1
            && Slot(q.n, q.prod) < |q.slots| && Pending(w) == Pending(q) + [q.slots[Slot(q.n, q.prod)]]
  {
    IndexFacts(q.n, q.prod);
    FromExtend(q, q.cons, Occupancy(q), q.prod);
    FromRegisters(q, Next(q.n, q.prod), q.cons, q.cons, Occupancy(q) + 1);
  }

  /** FIFO, producer side: while there is room nothing unconsumed is overwritten. */
  lemma ProduceAppends(q: Ring, c: Cmd)
    requires WellFormed(q) && Occupancy(q) < Pow2(q.n)
    ensures WellFormed(Produce(q, c))
    ensures Pending(Produce(q, c)) == Pending(q) + [c]
    ensures Occupancy(Produce(q, c)) == Occupancy(q) + 1
  {
    IndexFacts(q.n, q.prod);
    FillSlot(q, c);
    Publish(q.(slots := q.slots[Slot(q.n, q.prod) := c]));
  }

  /** FIFO, consumer side: consuming takes the oldest pending command. */
  lemma ConsumeTakesFirst(q: Ring)
    requires WellFormed(q) && Occupancy(q) > 0
    ensures WellFormed(Consume(q)) && Occupancy(Consume(q)) == Occupancy(q) - 1
    ensures Pending(q) == [q.slots[Slot(q.n, q.cons)]] + Pending(Consume(q))
  {
    var next := Next(q.n, q.cons);
    FromRegisters(q, q.prod, next, next, Occupancy(q) - 1);
  }

  // ----- batches -----

  /** Commands written one after the other while the consumer stands still. */
  function ProduceAll(q: Ring, cs: seq<Cmd>): Ring
    requires WellFormed(q)
    decreases |cs|
  {
    if cs == [] then q else ProduceAll(Produce(q, cs[0]), cs[1..])
  }

  lemma {:induction false} BatchFits(q: Ring, cs: seq<Cmd>)
    requires WellFormed(q) && Occupancy(q) + |cs| <= Pow2(q.n)
    ensures WellFormed(ProduceAll(q, cs)) && Pending(ProduceAll(q, cs)) == Pending(q) + cs
    decreases |cs|
  {
    if cs != [] {
      assert [cs[0]] + cs[1..] == cs;
      ProduceAllStep(q, cs[0], cs[1..]);
      ProduceAppends(q, cs[0]);
      BatchFits(Produce(q, cs[0]), cs[1..]);
      assert Pending(q) + [cs[0]] + cs[1..] == Pending(q) + cs;
    }
  }

  /** The commands of smmu_tlbi_cfgi. */
  function FlushBatch(hyp: bool): seq<Cmd> {
    [CfgiAll] + (if hyp then [TlbiEl2All] else []) + [TlbiNsnhAll, Sync]
  }

  /** A stalled consumer still finds the whole-configuration invalidation exactly when
      the ring has at least four slots; smaller rings lose it. */
  lemma FlushSurvivesIffFourSlots(q: Ring, hyp: bool)
    requires WellFormed(q) && q.prod == q.cons
    ensures WellFormed(ProduceAll(q, FlushBatch(hyp)))
    ensures q.n >= 2 ==> Pending(ProduceAll(q, FlushBatch(hyp))) == FlushBatch(hyp)
    ensures CfgiAll in Pending(ProduceAll(q, FlushBatch(hyp))) <==> q.n >= 2
  {
    if q.n >= 2 {
      assert Pow2(q.n) == 2 * (2 * Pow2(q.n - 2));
      BatchFits(q, FlushBatch(hyp));
      assert Pending(q) == [];
    } else {
      SmallRingLosesFlush(q, hyp);
    }
  }

  lemma ProduceAllStep(q: Ring, c: Cmd, cs: seq<Cmd>)
    requires WellFormed(q)
    ensures WellFormed(Produce(q, c)) && ProduceAll(q, [c] + cs) == ProduceAll(Produce(q, c), cs)
    ensures Produce(q, c) == q.(slots := q.slots[Slot(q.n, q.prod) := c], prod := Next(q.n, q.prod))
  {
    assert ([c] + cs)[1..] == cs;
  }

  lemma {:induction false} ProduceAllAppend(q: Ring, cs: seq<Cmd>, ds: seq<Cmd>)
    requires WellFormed(q)
    ensures WellFormed(ProduceAll(q, cs)) && ProduceAll(q, cs).n == q.n
    ensures ProduceAll(q, cs + ds) == ProduceAll(ProduceAll(q, cs), ds)
    decreases |cs|
  {
    if cs == [] {
      assert cs + ds == ds;
    } else {
      assert [cs[0]] + (cs[1..] + ds) == cs + ds && [cs[0]] + cs[1..] == cs;
      ProduceAllStep(q, cs[0], cs[1..] + ds);
      ProduceAllStep(q, cs[0], cs[1..]);
      ProduceAllAppend(Produce(q, cs[0]), cs[1..], ds);
    }
  }

  /** Two consecutive positions cover a ring of one or two slots. */
  lemma TwoSlotsCover(n: nat, p: nat, i: nat)
    requires n < 2 && p < 2 * Pow2(n) && i < Pow2(n)
    ensures i == Slot(n, p) || i == Slot(n, Next(n, p))
  {
    assert Pow2(0) == 1 && Pow2(1) == 2;
  }

  lemma TwoWritesCover(q: Ring)
    requires WellFormed(q) && q.n < 2
    ensures WellFormed(ProduceAll(q, [TlbiNsnhAll, Sync])) && CfgiAll !in ProduceAll(q, [TlbiNsnhAll, Sync]).slots
  {
    assert [TlbiNsnhAll] + [Sync] == [TlbiNsnhAll, Sync] && [Sync] + [] == [Sync];
    ProduceAllStep(q, TlbiNsnhAll, [Sync]);
    var r := Produce(q, TlbiNsnhAll);
    ProduceAllStep(r, Sync, []);
    NothingProduced(Produce(r, Sync));
    IndexFacts(q.n, q.prod);
    IndexFacts(q.n, Next(q.n, q.prod));
    SlotsCovered(q, Produce(r, Sync));
  }

  lemma NothingProduced(q: Ring)
    requires WellFormed(q)
    ensures ProduceAll(q, []) == q
  {
  }

  lemma SlotsCovered(q: Ring, r: Ring)
    requires WellFormed(q) && q.n < 2
    requires Slot(q.n, q.prod) < |q.slots| && Slot(q.n, Next(q.n, q.prod)) < |q.slots|
    requires r.slots == q.slots[Slot(q.n, q.prod) := TlbiNsnhAll][Slot(q.n, Next(q.n, q.prod)) := Sync]
    ensures CfgiAll !in r.slots
  {
    forall i: nat | i < |r.slots| ensures r.slots[i] != CfgiAll {
      TwoSlotsCover(q.n, q.prod, i);
    }
  }

  lemma SmallRingLosesFlush(q: Ring, hyp: bool)
    requires WellFormed(q) && q.n < 2
    ensures WellFormed(ProduceAll(q, FlushBatch(hyp)))
    ensures CfgiAll !in Pending(ProduceAll(q, FlushBatch(hyp)))
  {
    var cs := [CfgiAll] + (if hyp then [TlbiEl2All] else []);
    assert FlushBatch(hyp) == cs + [TlbiNsnhAll, Sync];
    ProduceAllAppend(q, cs, [TlbiNsnhAll, Sync]);
    TwoWritesCover(ProduceAll(q, cs));
    var r := ProduceAll(q, FlushBatch(hyp));
    FromSlots(r, r.cons, Occupancy(r));
  }

  lemma {:induction false} FromSlots(q: Ring, p: nat, k: nat)
    requires WellFormed(q) && p < 2 * Pow2(q.n)
    ensures forall c :: c in From(q, p, k) ==> c in q.slots
    decreases k
  {
    if k > 0 { FromSlots(q, Next(q.n, p), k - 1); }
  }

  /** With EL2 support the batch has four commands, and a ring of one or two slots
      looks drained the moment it is written. */
  lemma SmallRingLooksDrained(q: Ring)
    requires WellFormed(q) && q.n < 2 && q.prod == q.cons
    ensures var r := ProduceAll(q, FlushBatch(true));
            WellFormed(r) && QueueEmpty(r.n, r.prod, r.cons) && Pending(r) == []
  {
    ProdAfter(q, FlushBatch(true));
    assert |FlushBatch(true)| == 4;
    FourStepsBack(q.n, q.prod);
    DrainedIsEmpty(ProduceAll(q, FlushBatch(true)));
  }

  lemma DrainedIsEmpty(q: Ring)
    requires WellFormed(q) && q.prod == q.cons
    ensures QueueEmpty(q.n, q.prod, q.cons) && Pending(q) == []
  {
  }

  /** Four steps bring an index of a ring of one or two slots back. */
  lemma FourStepsBack(n: nat, p: nat)
    requires n < 2 && p < 2 * Pow2(n)
    ensures Advance(n, p, 4) == p
  {
    assert Pow2(0) == 1 && Pow2(1) == 2;
    var p2 := Next(n, Next(n, p));
    assert Advance(n, p, 4) == Advance(n, p2, 2) == Next(n, Next(n, p2));
  }

  function Advance(n: nat, p: nat, k: nat): nat
    decreases k
  {
    if k == 0 then p else Advance(n, Next(n, p), k - 1)
  }

  /** Writing commands moves the producer index, one step each, and nothing else. */
  lemma {:induction false} ProdAfter(q: Ring, cs: seq<Cmd>)
    requires WellFormed(q)
    ensures var r := ProduceAll(q, cs);
            WellFormed(r) && r.n == q.n && r.cons == q.cons && r.prod == Advance(q.n, q.prod, |cs|)
    decreases |cs|
  {
    if cs != [] {
      assert [cs[0]] + cs[1..] == cs;
      ProduceAllStep(q, cs[0], cs[1..]);
      ProdAfter(Produce(q, cs[0]), cs[1..]);
    }
  }
}
