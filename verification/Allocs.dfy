/** libunix/alloc.c: small blocks come from a static arena, from its top downwards, and are never
    given back; the others come from malloc. */
module Allocs {
  import opened Bytes

  const ALIGNMENT: nat := 16
  const SPACE: nat := 2048

  /** The size a request is rounded to, in 32 bits. */
  function Rounded(n: u32): (r: u32)
    ensures n < 0x1_0000_0000 - 16 ==> n < r <= n + 16 && r % 16 == 0
    ensures n >= 0x1_0000_0000 - 16 ==> r == 0
  {
    (ALIGNMENT + n - n % ALIGNMENT) % 0x1_0000_0000
  }

  /** A block of the arena starts at an offset; one of malloc's is size bytes long. */
  datatype Block = Static(offset: nat) | Heap(size: u32) | Nothing

  /** The block has room for the bytes that were asked for. */
  predicate Holds(b: Block, n: u32, top: nat) {
    match b
    case Static(offset) => offset + n <= top
    case Heap(size) => n <= size
    case Nothing => true
  }

  class Arena {
    var avail: nat
    ghost var given: seq<(nat, nat)>      // the arena blocks given so far: from, up to

    /** The blocks lie in the arena, aligned, each below all the earlier ones. */
    ghost predicate Valid()
      reads this
    {
      && avail <= SPACE && avail % ALIGNMENT == 0
      && (forall i :: 0 <= i < |given| ==>
        avail <= given[i].0 <= given[i].1 <= SPACE && given[i].0 % ALIGNMENT == 0)
      && (forall i, j :: 0 <= i < j < |given| ==> given[j].1 <= given[i].0)
    }

    constructor ()
      ensures Valid() && given == [] && avail == 2048
    {
      avail, given := SPACE, [];
    }

    /** alloc. Only a size so close to 2^32 that the rounding overflows gets a block that is too
        small for it; every other block holds its bytes and overlaps no block given before. */
    method Alloc(n: u32) returns (b: Block)
      requires Valid()
      modifies this
      ensures Valid()
      ensures b.Static? ==> given == old(given) + [(b.offset, old(avail))] && b.offset == avail
      ensures b.Static? <==> Rounded(n) <= old(avail)
      ensures !b.Static? ==> given == old(given) && avail == old(avail)
      ensures b != Nothing ==> (Holds(b, n, old(avail)) <==> n < 0x1_0000_0000 - 16)
    {
      var size := Rounded(n);
      if size <= avail {
        given := given + [(avail - size, avail)];
        avail := avail - size;
        return Static(avail);
      }
      var ok: bool := *;
      return if ok then Heap(size) else Nothing;
    }

    /** alloc_free, which tells the two kinds of block apart by their address. Every block of the
        arena that is not empty is left alone. */
    method Free(address: int, space: int) returns (freed: bool)
      requires Valid()
      ensures freed <==> !(space <= address < space + 2048)
      ensures forall i :: 0 <= i < |given| && given[i].0 < given[i].1 && address == space + given[i].0 ==> !freed
    {
      freed := !(space <= address && address < space + SPACE);
    }
  }
}
