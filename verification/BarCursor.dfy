/** The cursor that hands out 32-bit BAR addresses of one class to the functions of a bus. */
module BarCursor {
  import opened Arithmetic
  import opened Bits

  /** An address range given to a BAR. */
  datatype Range = Range(base: int, size: int)

  /** Start of the last range, its size, and the bus it was given on. */
  datatype Cursor = Cursor(start: int, size: int, bus: int)

  /** One BAR of `size` bytes; `own` is the size of the function's previous BAR, 0 for its first. */
  function Place(c: Cursor, bus: int, own: int, size: int): Cursor {
    var start :=
      if own == 0 && c.bus == bus then
        if c.size < size then c.start + size else c.start + c.size
      else if c.size < size && own != 0 then c.start + size
      else c.start + own;
    Cursor(start, size, bus)
  }

  /** Each range starts where its predecessor did plus the larger of the two sizes. */
  ghost predicate Stepped(rs: seq<Range>) {
    && (forall i :: 0 <= i < |rs| ==> rs[i].size > 0)
    && (forall i :: 1 <= i < |rs| ==> Follows(rs[i - 1], rs[i]))
  }

  ghost predicate Follows(r: Range, s: Range) {
    s.base == r.base + if r.size < s.size then s.size else r.size
  }

  /** The ranges given out on `bus` so far, the last being the one the cursor stands on. */
  ghost predicate Given(rs: seq<Range>, c: Cursor, bus: int) {
    && Stepped(rs)
    && (rs != [] ==> rs[|rs| - 1] == Range(c.start, c.size) && c.bus == bus)
  }

  /** The next BAR on the bus extends the ranges given so far. */
  lemma PlaceFollows(before: seq<Range>, rs: seq<Range>, c: Cursor, bus: int, own: int, size: int)
    requires Given(before + rs, c, bus) && size > 0
    requires own == 0 || (before + rs != [] && own == c.size)
    ensures var next := Place(c, bus, own, size);
            var more := rs + [Range(next.start, size)];
            Given(before + more, next, bus) && Sizes(more) == Sizes(rs) + [size] && before + more != []
  {
    var next := Place(c, bus, own, size);
    var more := rs + [Range(next.start, size)];
    var all := before + rs + [Range(next.start, size)];
    assert before + more == all && more[..|rs|] == rs;
    forall i | 1 <= i < |all| ensures Follows(all[i - 1], all[i]) {
      if i < |before + rs| {
        assert Follows((before + rs)[i - 1], (before + rs)[i]);
      }
    }
  }

  /** The sizes of the BARs a function implements. */
  function Implemented(sizes: seq<int>): seq<int> {
    if sizes == [] then []
    else Implemented(sizes[..|sizes| - 1]) + if sizes[|sizes| - 1] > 0 then [sizes[|sizes| - 1]] else []
  }

  function Sizes(rs: seq<Range>): seq<int> {
    if rs == [] then [] else Sizes(rs[..|rs| - 1]) + [rs[|rs| - 1].size]
  }

  /** The first range of a function starts where the cursor stands on another bus, and past it on the same. */
  ghost predicate StartsAt(c: Cursor, bus: int, r: Range) {
    r.base == c.start + if c.bus != bus then 0 else if c.size < r.size then r.size else c.size
  }

  lemma PlaceStarts(c: Cursor, bus: int, size: int)
    ensures StartsAt(c, bus, Range(Place(c, bus, 0, size).start, size))
  {
  }

  lemma ImplementedStep(sizes: seq<int>, k: nat)
    requires k < |sizes|
    ensures Implemented(sizes[..k + 1]) == Implemented(sizes[..k]) + if sizes[k] > 0 then [sizes[k]] else []
  {
    assert sizes[..k + 1][..k] == sizes[..k];
  }

  class Programmer {
    var cursor: Cursor

    constructor (start: int)
      ensures cursor == Cursor(start, 0, 0)
    {
      cursor := Cursor(start, 0, 0);
    }

    /** One BAR; `rs` are the ranges this function already got. */
    method PlaceBar(bus: int, own: int, size: int, ghost before: seq<Range>, ghost rs: seq<Range>) returns (r: Range)
      requires Given(before + rs, cursor, bus) && size > 0
      requires own == 0 || (before + rs != [] && own == cursor.size)
      modifies this
      ensures Given(before + (rs + [r]), cursor, bus) && before + (rs + [r]) != []
      ensures Sizes(rs + [r]) == Sizes(rs) + [size] && r.size == size == cursor.size
      ensures own == 0 ==> StartsAt(old(cursor), bus, r)
    {
      PlaceFollows(before, rs, cursor, bus, own, size);
      PlaceStarts(cursor, bus, size);
      cursor := Place(cursor, bus, own, size);
      r := Range(cursor.start, size);
    }

    /** Programs the BARs of one endpoint, sizes as probed (0: not implemented), and returns
        the ranges written; `before` are those given to earlier functions of the same bus. */
    method ProgramFunction(bus: int, sizes: seq<int>, ghost before: seq<Range>) returns (rs: seq<Range>)
      requires Given(before, cursor, bus)
      modifies this
      ensures Given(before + rs, cursor, bus)
      ensures Sizes(rs) == Implemented(sizes)
      ensures rs != [] && old(cursor).bus != bus ==> rs[0].base == old(cursor).start
      ensures rs != [] && old(cursor).bus == bus ==>
                rs[0].base == old(cursor).start + if old(cursor).size < rs[0].size then rs[0].size else old(cursor).size
    {
      var own := 0;
      var k := 0;
      rs := [];
      assert before + rs == before;
      while k < |sizes|
        invariant k <= |sizes|
        invariant Given(before + rs, cursor, bus)
        invariant own == 0 || (before + rs != [] && own == cursor.size)
        invariant Sizes(rs) == Implemented(sizes[..k])
        invariant rs == [] ==> own == 0 && cursor == old(cursor)
        invariant rs != [] ==> StartsAt(old(cursor), bus, rs[0])
      {
        ImplementedStep(sizes, k);
        if sizes[k] > 0 {
          var r := PlaceBar(bus, own, sizes[k], before, rs);
          own := sizes[k];
          rs := rs + [r];
        }
        k := k + 1;
      }
      assert sizes[..k] == sizes;
    }
  }

  /** Whatever the sizes, later ranges start strictly above earlier ones and never overlap them. */
  lemma {:induction false} RangesDisjoint(rs: seq<Range>, i: nat, j: nat)
    requires Stepped(rs) && i < j < |rs|
    ensures rs[i].base < rs[j].base && rs[i].base + rs[i].size <= rs[j].base
    decreases j
  {
    assert Follows(rs[j - 1], rs[j]);
    if i < j - 1 {
      RangesDisjoint(rs, i, j - 1);
    }
  }

  ghost predicate Aligned(r: Range) {
    r.size > 0 && r.base % r.size == 0
  }

  /** Power-of-two sizes that never grow, from an aligned first range: all ranges are naturally aligned. */
  lemma {:induction false} RangesAligned(rs: seq<Range>, e: seq<nat>, k: nat)
    requires Stepped(rs) && |e| == |rs| && k < |rs|
    requires forall i :: 0 <= i < |rs| ==> rs[i].size == Pow2(e[i])
    requires forall i, j :: 0 <= i < j < |rs| ==> e[i] >= e[j]
    requires Aligned(rs[0])
    ensures Aligned(rs[k])
    decreases k
  {
    if k > 0 {
      RangesAligned(rs, e, k - 1);
      assert Follows(rs[k - 1], rs[k]);
      AlignedNext(rs[k - 1], rs[k], e[k - 1], e[k]);
    }
  }

  /** One step, in both directions: after a range at least as large that is aligned the next
      is aligned; after a smaller one, exactly when the smaller one stands on a multiple of
      the new size. */
  lemma AlignedNext(r: Range, s: Range, d: nat, e: nat)
    requires Follows(r, s) && r.size == Pow2(d) && s.size == Pow2(e)
    ensures d >= e && Aligned(r) ==> Aligned(s)
    ensures d < e ==> (Aligned(s) <==> r.base % s.size == 0)
  {
    if d >= e {
      Pow2Sum(d - e, e);
      PowerLess(e, d);
      if Aligned(r) {
        NextMultipleOf(r.base, Pow2(d - e), s.size);
      }
    } else {
      PowerLess(d, e);
      AddOne(r.base, s.size);
    }
  }

  lemma NextMultipleOf(x: int, ratio: int, size: int)
    requires size > 0 && ratio * size > 0 && x % (ratio * size) == 0
    ensures (x + ratio * size) % size == 0
  {
    var big := ratio * size;
    var q := x / big;
    calc {
      x + big;
      q * big + big;
      (q + 1) * big;
      (q + 1) * (ratio * size);
      ((q + 1) * ratio) * size;
    }
    RemainderUnique(x + big, size, (q + 1) * ratio, 0);
  }

  lemma AddOne(x: int, size: int)
    requires size > 0
    ensures (x + size) % size == x % size
  {
    RemainderUnique(x + size, size, x / size + 1, x % size);
  }
}
