/** Segment, bus, device and function numbers, and their packed form. */
module PciAddress {
  import opened Arithmetic

  const MAX_DEV: nat := 32
  const MAX_FUNC: nat := 8

  datatype Bdf = Bdf(seg: nat, bus: nat, dev: nat, func: nat)

  function Pack(b: Bdf): nat { b.seg * 0x100_0000 + b.bus * 0x1_0000 + b.dev * 0x100 + b.func }

  function Unpack(x: nat): Bdf { Bdf(x / 0x100_0000 % 256, x / 0x1_0000 % 256, x / 0x100 % 256, x % 256) }

  predicate EightBit(b: Bdf) { b.seg < 256 && b.bus < 256 && b.dev < 256 && b.func < 256 }

  lemma UnpackPack(b: Bdf)
    requires EightBit(b)
    ensures Unpack(Pack(b)) == b
  {
    var x1 := b.seg * 256 + b.bus;
    var x2 := x1 * 256 + b.dev;
    var x := Pack(b);
    RemainderUnique(x, 0x100, x2, b.func);
    RemainderUnique(x, 0x1_0000, x1, b.dev * 0x100 + b.func);
    RemainderUnique(x, 0x100_0000, b.seg, b.bus * 0x1_0000 + b.dev * 0x100 + b.func);
    RemainderUnique(x2, 256, x1, b.dev);
    RemainderUnique(x1, 256, b.seg, b.bus);
    RemainderUnique(b.seg, 256, 0, b.seg);
  }

  /** Segment, bus, device and function from the top byte down. */
  lemma PackedBytes(b: Bdf)
    requires EightBit(b)
    ensures Pack(b) < 0x1_0000_0000 && Pack(b) / 0x100_0000 == b.seg && Pack(b) / 0x1_0000 % 0x100 == b.bus
    ensures Pack(b) / 0x100 % 0x100 == b.dev && Pack(b) % 0x100 == b.func
  {
    UnpackPack(b);
    RemainderUnique(Pack(b), 0x100_0000, b.seg, b.bus * 0x1_0000 + b.dev * 0x100 + b.func);
  }
}
