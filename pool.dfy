/** The device-memory allocator (`compat_qxl_mem_create`, `compat_qxl_alloc`, `compat_qxl_free`,
    `compat_qxl_mem_free_all`; src/compat/compat-qxl.h).  Its free-list internals are not part of
    this model: the pool is the set of live blocks, pairwise disjoint and inside the pool's range,
    and an allocation either returns a block that fits or fails. */
module Memory {
  import opened Protocol

  /** A live block: its size in bytes and the record the driver has written into it. */
  datatype Block = Block(size: nat, rec: Record)

  /** Every block of `m1` is a block of `m2` with the same size and contents. */
  ghost predicate Submap(m1: map<u64, Block>, m2: map<u64, Block>)
  {
    forall a :: a in m1 ==> a in m2 && m1[a] == m2[a]
  }

  /** Writing a block and then leaving it out gives the map without it. */
  lemma WriteThenDrop(b: map<u64, Block>, a: u64, v: Block)
    ensures b[a := v] - {a} == b - {a}
  {
  }

  /** Two byte ranges do not overlap. */
  predicate Apart(a: int, n: int, b: int, k: int)
  {
    a + n <= b || b + k <= a
  }

  class Pool {
    /** Start and length of the byte range the pool manages. */
    const base: u64
    const size: nat
    /** The allocator's answer to its k-th request: the address it would hand out, or null.
        This stands for the allocator's internal state, which the model does not describe. */
    const answer: nat -> Option<u64>
    /** How many requests have been made so far. */
    var calls: nat
    /** The live blocks, by address. */
    var blocks: map<u64, Block>

    ghost predicate Valid()
      reads this
    {
      && base + size <= WORD
      && (forall a :: a in blocks ==>
            Aligned(a) && base <= a && a + blocks[a].size <= base + size && blocks[a].size > 0)
      && (forall a, b :: a in blocks && b in blocks && a != b ==>
            Apart(a, blocks[a].size, b, blocks[b].size))
    }

    constructor (base: u64, size: nat, answer: nat -> Option<u64>)
      requires base + size <= WORD
      ensures Valid()
      ensures this.base == base && this.size == size && this.answer == answer
      ensures blocks == map[] && calls == 0
    {
      this.base := base;
      this.size := size;
      this.answer := answer;
      calls := 0;
      blocks := map[];
    }

    /** `n` bytes at `a` would be a block of this pool overlapping no live block. */
    predicate Fits(a: u64, n: nat)
      reads this
    {
      && Aligned(a) && n > 0 && base <= a && a + n <= base + size
      && forall b :: b in blocks ==> Apart(a, n, b, blocks[b].size)
    }

    /** `compat_qxl_alloc`: a fresh block of `n` bytes, or `None` (null) when the allocator has
        nothing that fits. */
    method Alloc(n: nat) returns (r: Option<u64>)
      requires Valid()
      modifies this
      ensures Valid() && calls == old(calls) + 1
      ensures r.Some? <==> answer(old(calls)).Some? && old(Fits(answer(calls).value, n))
      ensures r.Some? ==> r == answer(old(calls)) && r.value !in old(blocks)
                          && blocks == old(blocks)[r.value := Block(n, Raw)]
      ensures r.None? ==> blocks == old(blocks)
    {
      var offer := answer(calls);
      calls := calls + 1;
      if offer.Some? && Fits(offer.value, n) {
        var a := offer.value;
        blocks := blocks[a := Block(n, Raw)];
        r := Some(a);
      } else {
        r := None;
      }
    }

    /** Writes a record into a live block. */
    method Store(a: u64, rec: Record)
      requires Valid() && a in blocks
      modifies this
      ensures Valid() && calls == old(calls)
      ensures blocks == old(blocks)[a := Block(old(blocks)[a].size, rec)]
    {
      blocks := blocks[a := Block(blocks[a].size, rec)];
    }

    /** `compat_qxl_free`: freeing anything but a live block is the caller's error. */
    method Free(a: u64)
      requires Valid() && a in blocks
      modifies this
      ensures Valid() && calls == old(calls)
      ensures blocks == old(blocks) - {a}
    {
      blocks := blocks - {a};
    }

    /** `compat_qxl_mem_free_all`: every block is free again. */
    method FreeAll()
      requires Valid()
      modifies this
      ensures Valid() && calls == old(calls)
      ensures blocks == map[]
    {
      blocks := map[];
    }
  }
}
