/** The kernel's bump allocator: one megabyte at the 16 MB mark, nothing is ever given back. */
module KernelHeap {
  import opened CTypes

  const KHEAP_START: nat := 0x100_0000
  const KHEAP_SIZE: nat := 0x10_0000

  /** The allocator grants `size` bytes when the sum, taken in 32 bits, stays below the limit. */
  predicate Grants(offset: nat, size: nat) {
    (offset + size) % WORDS < KHEAP_SIZE
  }

  /** The request really fits; the two agree while the sum does not wrap. */
  predicate Fits(offset: nat, size: nat) {
    offset + size < KHEAP_SIZE
  }

  /** A granted block lies inside the heap exactly when the 32-bit sum did not wrap. */
  lemma GrantsIffFits(offset: nat, size: nat)
    requires offset < KHEAP_SIZE && size < WORDS
    ensures Grants(offset, size) <==> Fits(offset, size) || size >= WORDS - offset
    ensures Grants(offset, size) && size < WORDS - offset <==> Fits(offset, size)
  {
    if offset + size < WORDS {
      assert (offset + size) % WORDS == offset + size;
    } else {
      assert (offset + size) % WORDS == offset + size - WORDS;
    }
  }

  datatype Block = Block(addr: nat, size: nat)

  ghost predicate Disjoint(a: Block, b: Block) {
    a.addr + a.size <= b.addr || b.addr + b.size <= a.addr
  }

  class Heap {
    var offset: nat
    /** Every block handed out since kmalloc_init, oldest first. */
    ghost var blocks: seq<Block>

    ghost predicate Valid()
      reads this
    {
      && offset < KHEAP_SIZE
      && (forall b :: b in blocks ==> KHEAP_START <= b.addr && b.addr + b.size <= KHEAP_START + offset)
      && (forall i, j :: 0 <= i < j < |blocks| ==> Disjoint(blocks[i], blocks[j]))
    }

    constructor ()
      ensures Valid() && offset == 0 && blocks == []
    {
      offset, blocks := 0, [];
    }

    /** kmalloc; address 0 is the failure value. */
    method Kmalloc(size: nat) returns (addr: nat)
      requires Valid() && size + KHEAP_SIZE <= WORDS
      modifies this
      ensures Valid()
      ensures Fits(old(offset), size) ==>
                && addr == KHEAP_START + old(offset) && offset == old(offset) + size
                && blocks == old(blocks) + [Block(addr, size)]
      ensures !Fits(old(offset), size) ==> addr == 0 && offset == old(offset) && blocks == old(blocks)
    {
      GrantsIffFits(offset, size);
      if (offset + size) % WORDS >= KHEAP_SIZE {
        return 0;
      }
      addr := KHEAP_START + offset;
      offset := offset + size;
      blocks := blocks + [Block(addr, size)];
    }
  }
}
