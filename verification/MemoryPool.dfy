/** The block allocator. */
module MemoryPools {
  import opened SourceText
  import opened PoolRules

  // What a request handler holds.
  class MemoryPoolTicket {
    var offset: nat
    var block: nat

    constructor (offset: nat, block: nat)
      ensures this.offset == offset && this.block == block
    {
      this.offset, this.block := offset, block;
    }
  }

  class MemoryPool {
    const blockSize: nat
    const totalSize: nat
    const startAddressOfPool: nat
    var freeBlocks: seq<nat>
    // The live tickets, what they hold and what has been allocated for them.
    ghost var pool: Pool<MemoryPoolTicket>

    ghost function Layout(): Geometry {
      Geometry(startAddressOfPool, blockSize, totalSize)
    }

    ghost predicate Valid()
      reads this, pool.holdings.Keys
    {
      && blockSize > 0
      && pool.free == freeBlocks
      && (forall t | t in pool.holdings :: t.block == pool.holdings[t].block && t.offset == pool.holdings[t].offset)
      && Sound(Layout(), pool)
    }

    constructor (totalSize: nat, blockSize: nat, startAddressOfPool: nat)
      requires blockSize > 0
      ensures Valid() && pool == Initial(Layout())
      ensures this.totalSize == totalSize && this.blockSize == blockSize &&
              this.startAddressOfPool == startAddressOfPool
    {
      this.totalSize, this.blockSize, this.startAddressOfPool := totalSize, blockSize, startAddressOfPool;
      freeBlocks := [];
      new;
      Reset();
      pool := Initial(Layout());
    }

    method Reset()
      requires blockSize > 0
      modifies `freeBlocks
      ensures freeBlocks == old(freeBlocks) + seq(totalSize / blockSize, i => i)
    {
      for i := 0 to totalSize / blockSize
        invariant freeBlocks == old(freeBlocks) + seq(i, j => j)
      {
        freeBlocks := freeBlocks + [i];
      }
    }

    method AllocateBlock() returns (block: nat)
      requires freeBlocks != []
      modifies `freeBlocks
      ensures block == Top(old(freeBlocks)) && freeBlocks == Popped(old(freeBlocks))
    {
      block := freeBlocks[|freeBlocks| - 1];
      freeBlocks := freeBlocks[..|freeBlocks| - 1];
    }

    /** A new ticket, at the start of a free block. */
    method TakeTicket() returns (ticket: MemoryPoolTicket)
      requires Valid() && freeBlocks != []
      modifies this
      ensures Valid() && fresh(ticket)
      ensures ticket !in old(pool.holdings) && pool == Taken(old(pool), ticket)
    {
      hide Sound;
      var block := AllocateBlock();
      ticket := new MemoryPoolTicket(HeaderSize, block);
      TakenSound(Layout(), pool, ticket);
      pool := Taken(pool, ticket);
    }

    /** Just the block in use goes back onto the stack. */
    method ReturnTicket(ticket: MemoryPoolTicket)
      requires Valid() && ticket in pool.holdings
      modifies this
      ensures Valid() && pool == Returned(old(pool), ticket)
    {
      hide Sound;
      ReturnedSound(Layout(), pool, ticket);
      freeBlocks := freeBlocks + [ticket.block];
      pool := Returned(pool, ticket);
    }

    /** The address of the allocation, or no result where the C++ program takes a block from an
        empty stack. The padding is reserved, but the address is not moved up by it. */
    method Allocate(size: nat, alignment: nat, ticket: MemoryPoolTicket) returns (address: Option<nat>)
      requires Valid() && ticket in pool.holdings
      modifies this, ticket
      ensures address.Some? <==> Allocated(Layout(), old(pool), ticket, size, alignment).Some?
      ensures address.None? ==> freeBlocks == []
      ensures address.Some? ==>
                && Valid() && Some(pool) == Allocated(Layout(), old(pool), ticket, size, alignment)
                && pool.allocations != []
                && var last := pool.allocations[|pool.allocations| - 1];
                   last.ticket == ticket && last.size == size &&
                   address == Some(Layout().Address(last.block, last.offset))
      decreases |freeBlocks|
    {
      hide Sound;
      var padding := 0;
      var currentAddress := startAddressOfPool + ticket.block * blockSize + ticket.offset;
      if alignment != 0 && ticket.offset % alignment != 0 {
        var multiplier := currentAddress / alignment + 1;
        var alignedAddress := multiplier * alignment;
        padding := alignedAddress - currentAddress;
      }
      assert padding == Padding(Layout(), pool.holdings[ticket], alignment);
      if ticket.offset + padding + size > blockSize {
        if freeBlocks == [] {
          return None;
        }
        MovedOnSound(Layout(), pool, ticket);
        ticket.block := AllocateBlock();
        ticket.offset := 0;
        pool := MovedOn(pool, ticket);
        address := Allocate(size, alignment, ticket);
        return;
      }
      GrownSound(Layout(), pool, ticket, size, alignment);
      ticket.offset := ticket.offset + padding + size;
      pool := Grown(Layout(), pool, ticket, size, alignment);
      address := Some(currentAddress);
    }
  }
}
