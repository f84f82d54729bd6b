/**
 What the block allocator does to its blocks, as functions of its state, and what every run of
 it keeps: the specification the allocator's methods are proved against.
 */
module PoolRules {
  import opened SourceText

  // The size of a ticket, which is placed at the start of the first block it is given.
  const HeaderSize: nat := 16

  /** What a live ticket stands for: its first block, all blocks it has been given, and the block
      and the offset in it from which it allocates. */
  datatype Holding = Holding(home: nat, held: set<nat>, block: nat, offset: nat)

  datatype Allocation<T> = Allocation(ticket: T, block: nat, offset: nat, size: nat)

  // The stack of free blocks, the live tickets and the allocations they have made.
  datatype Pool<T(==)> = Pool(free: seq<nat>, holdings: map<T, Holding>, allocations: seq<Allocation<T>>)

  datatype Geometry = Geometry(start: nat, blockSize: nat, totalSize: nat) {
    ghost predicate Valid() {
      blockSize > 0
    }

    function Blocks(): nat
      requires Valid()
    {
      totalSize / blockSize
    }

    function Address(block: nat, offset: nat): nat {
      start + block * blockSize + offset
    }
  }

  /** The calls of a request handler. Returning a ticket ends it. */
  datatype Call<T> = Take(ticket: T) | Allocate(ticket: T, size: nat, alignment: nat) | Return(ticket: T)

  // Bytes reserved after an allocation, as if it had been moved up to the alignment.
  function Padding(g: Geometry, holding: Holding, alignment: nat): nat {
    if alignment == 0 || holding.offset % alignment == 0 then 0
    else
      var current := g.Address(holding.block, holding.offset);
      NextMultiple(current, alignment) - current
  }

  function NextMultiple(n: nat, m: nat): (r: nat)
    requires m > 0
    ensures n < r <= n + m
  {
    (n / m + 1) * m
  }

  ghost predicate IsMultiple(n: nat, m: nat) {
    exists k: nat :: n == k * m
  }

  lemma {:induction false} FactorsApart(j: nat, k: nat, m: nat)
    requires j < k
    ensures j * m + m <= k * m
    decreases k
  {
    assert k * m == (k - 1) * m + m;
    if j < k - 1 {
      FactorsApart(j, k - 1, m);
    }
  }

  // A multiple from one multiple on and below the next one is the first of the two.
  lemma {:induction false} OneMultiple(q: nat, k: nat, m: nat)
    requires q * m <= k * m < q * m + m
    ensures k == q
  {
    if k < q {
      FactorsApart(k, q, m);
    } else if q < k {
      FactorsApart(q, k, m);
    }
  }

  lemma Remainder(n: nat, m: nat)
    requires m > 0
    ensures n / m * m <= n < n / m * m + m && NextMultiple(n, m) == n / m * m + m
    ensures n % m == 0 <==> IsMultiple(n, m)
  {
    var q := n / m;
    assert n == q * m + n % m;
    if k: nat :| n == k * m {
      OneMultiple(q, k, m);
    }
  }

  // Nothing between a number and the next multiple is a multiple.
  lemma Between(n: nat, a: nat, m: nat)
    requires m > 0 && n < a < NextMultiple(n, m)
    ensures !IsMultiple(a, m)
  {
    Remainder(n, m);
    hide NextMultiple;
    if k: nat :| a == k * m {
      OneMultiple(n / m, k, m);
    }
  }

  /** The address to which one is moved up: its own if the offset in the block is a multiple of the alignment,
      or there is no alignment; and if not, the least multiple above it. */
  ghost predicate MovedUp(g: Geometry, holding: Holding, alignment: nat, next: nat) {
    var current := g.Address(holding.block, holding.offset);
    if alignment == 0 || IsMultiple(holding.offset, alignment) then next == current
    else next > current && IsMultiple(next, alignment) &&
         forall a | current < a < next :: !IsMultiple(a, alignment)
  }

  lemma PaddingExactly(g: Geometry, holding: Holding, alignment: nat)
    ensures MovedUp(g, holding, alignment, g.Address(holding.block, holding.offset) + Padding(g, holding, alignment))
  {
    hide IsMultiple;
    if alignment != 0 {
      var current := g.Address(holding.block, holding.offset);
      Remainder(holding.offset, alignment);
      IsNext(current, alignment);
      forall a | current < a < NextMultiple(current, alignment) ensures !IsMultiple(a, alignment) {
        Between(current, a, alignment);
      }
    }
  }

  lemma IsNext(n: nat, m: nat)
    requires m > 0
    ensures IsMultiple(NextMultiple(n, m), m)
  {
    var k := n / m + 1;
    assert NextMultiple(n, m) == k * m;
  }

  predicate Fits(g: Geometry, holding: Holding, size: nat, alignment: nat) {
    holding.offset + Padding(g, holding, alignment) + size <= g.blockSize
  }

  function Top(free: seq<nat>): nat
    requires free != []
  {
    free[|free| - 1]
  }

  function Popped(free: seq<nat>): seq<nat>
    requires free != []
  {
    free[..|free| - 1]
  }

  function Taken<T(==)>(p: Pool<T>, ticket: T): Pool<T>
    requires p.free != []
  {
    var block := Top(p.free);
    p.(free := Popped(p.free), holdings := p.holdings[ticket := Holding(block, {block}, block, HeaderSize)])
  }

  // The ticket gives up the rest of its block and goes on in another one.
  function MovedOn<T(==)>(p: Pool<T>, ticket: T): Pool<T>
    requires p.free != [] && ticket in p.holdings
  {
    var h, block := p.holdings[ticket], Top(p.free);
    p.(free := Popped(p.free),
       holdings := p.holdings[ticket := h.(held := h.held + {block}, block := block, offset := 0)])
  }

  function Grown<T(==)>(g: Geometry, p: Pool<T>, ticket: T, size: nat, alignment: nat): Pool<T>
    requires ticket in p.holdings
  {
    var h := p.holdings[ticket];
    p.(holdings := p.holdings[ticket := h.(offset := h.offset + Padding(g, h, alignment) + size)],
       allocations := p.allocations + [Allocation(ticket, h.block, h.offset, size)])
  }

  // Allocating, or running out of free blocks.
  function Allocated<T(==)>(g: Geometry, p: Pool<T>, ticket: T, size: nat, alignment: nat): Option<Pool<T>>
    requires ticket in p.holdings
    decreases |p.free|
  {
    if Fits(g, p.holdings[ticket], size, alignment) then Some(Grown(g, p, ticket, size, alignment))
    else if p.free == [] then None
    else Allocated(g, MovedOn(p, ticket), ticket, size, alignment)
  }

  /** Where it fits, an allocation reserves as many bytes as it was asked for from the address it is moved up
      to, and hands out the one it was moved up from. */
  lemma AllocationReserves<T>(g: Geometry, p: Pool<T>, ticket: T, size: nat, alignment: nat)
    requires ticket in p.holdings && Fits(g, p.holdings[ticket], size, alignment)
    ensures var r, before := Allocated(g, p, ticket, size, alignment), p.holdings[ticket];
            && r.Some? && ticket in r.value.holdings && r.value.free == p.free
            && r.value.allocations == p.allocations + [Allocation(ticket, before.block, before.offset, size)]
            && var after := r.value.holdings[ticket];
               && after.block == before.block && after.held == before.held
               && g.Address(after.block, after.offset) >= size
               && MovedUp(g, before, alignment, g.Address(after.block, after.offset) - size)
  {
    hide Padding, MovedUp;
    PaddingExactly(g, p.holdings[ticket], alignment);
  }

  function Without<T(==)>(allocations: seq<Allocation<T>>, ticket: T): seq<Allocation<T>> {
    if allocations == [] then []
    else
      var last := |allocations| - 1;
      Without(allocations[..last], ticket) + if allocations[last].ticket == ticket then [] else [allocations[last]]
  }

  // Only the block in use is free again.
  function Returned<T(==)>(p: Pool<T>, ticket: T): Pool<T>
    requires ticket in p.holdings
  {
    Pool(p.free + [p.holdings[ticket].block], p.holdings - {ticket}, Without(p.allocations, ticket))
  }

  /** A call, unless it misuses a ticket or finds no free block. */
  function Step<T(==)>(g: Geometry, p: Pool<T>, call: Call<T>): Option<Pool<T>> {
    match call
    case Take(ticket) => if ticket in p.holdings || p.free == [] then None else Some(Taken(p, ticket))
    case Allocate(ticket, size, alignment) =>
      if ticket in p.holdings then Allocated(g, p, ticket, size, alignment) else None
    case Return(ticket) => if ticket in p.holdings then Some(Returned(p, ticket)) else None
  }

  function Run<T(==)>(g: Geometry, p: Pool<T>, calls: seq<Call<T>>): Option<Pool<T>> {
    if calls == [] then Some(p)
    else
      var before := Run(g, p, calls[..|calls| - 1]);
      if before.None? then None else Step(g, before.value, calls[|calls| - 1])
  }

  function Initial<T(==)>(g: Geometry): Pool<T>
    requires g.Valid()
  {
    Pool(seq(g.Blocks(), i => i), map[], [])
  }

  // The bookkeeping that makes allocations safe.
  ghost predicate FreeSound(g: Geometry, free: seq<nat>)
    requires g.Valid()
  {
    && (forall k | 0 <= k < |free| :: free[k] < g.Blocks())
    && (forall j, k | 0 <= j < k < |free| :: free[j] != free[k])
  }

  ghost predicate HoldingSound(g: Geometry, free: seq<nat>, h: Holding)
    requires g.Valid()
  {
    && h.home in h.held && h.block in h.held && (h.block == h.home ==> HeaderSize <= h.offset)
    && forall b | b in h.held :: b < g.Blocks() && b !in free
  }

  ghost predicate Apart<T>(holdings: map<T, Holding>) {
    forall t, u | t in holdings && u in holdings && t != u :: holdings[t].held !! holdings[u].held
  }

  ghost predicate AllocationSound<T>(g: Geometry, holdings: map<T, Holding>, a: Allocation<T>) {
    && a.ticket in holdings
    && var h := holdings[a.ticket];
    && a.block in h.held && a.offset + a.size <= g.blockSize
    && (a.block == h.block ==> a.offset + a.size <= h.offset)
    && (a.block == h.home ==> HeaderSize <= a.offset)
  }

  ghost predicate Ordered<T>(allocations: seq<Allocation<T>>) {
    forall j, k | 0 <= j < k < |allocations| && allocations[j].block == allocations[k].block ::
      allocations[j].offset + allocations[j].size <= allocations[k].offset
  }

  ghost predicate Sound<T>(g: Geometry, p: Pool<T>)
    requires g.Valid()
  {
    && FreeSound(g, p.free)
    && (forall t | t in p.holdings :: HoldingSound(g, p.free, p.holdings[t]))
    && Apart(p.holdings)
    && (forall k | 0 <= k < |p.allocations| :: AllocationSound(g, p.holdings, p.allocations[k]))
    && Ordered(p.allocations)
  }

  // The block on top of the stack belongs to nobody.
  lemma TopIsFree<T>(g: Geometry, p: Pool<T>)
    requires g.Valid() && Sound(g, p) && p.free != []
    ensures FreeSound(g, Popped(p.free)) && Top(p.free) < g.Blocks() && Top(p.free) !in Popped(p.free)
    ensures forall t | t in p.holdings ::
              HoldingSound(g, Popped(p.free), p.holdings[t]) && Top(p.free) !in p.holdings[t].held
  {
  }

  lemma TakenSound<T>(g: Geometry, p: Pool<T>, ticket: T)
    requires g.Valid() && Sound(g, p) && p.free != [] && ticket !in p.holdings
    ensures Sound(g, Taken(p, ticket))
  {
    TopIsFree(g, p);
  }

  lemma MovedOnSound<T>(g: Geometry, p: Pool<T>, ticket: T)
    requires g.Valid() && Sound(g, p) && p.free != [] && ticket in p.holdings
    ensures Sound(g, MovedOn(p, ticket))
  {
    TopIsFree(g, p);
    var q := MovedOn(p, ticket);
    forall k | 0 <= k < |q.allocations| ensures AllocationSound(g, q.holdings, q.allocations[k]) {
      assert AllocationSound(g, p.holdings, p.allocations[k]);
    }
  }

  lemma GrownSound<T>(g: Geometry, p: Pool<T>, ticket: T, size: nat, alignment: nat)
    requires g.Valid() && Sound(g, p) && ticket in p.holdings && Fits(g, p.holdings[ticket], size, alignment)
    ensures Sound(g, Grown(g, p, ticket, size, alignment))
  {
    hide Padding;
    var q := Grown(g, p, ticket, size, alignment);
    forall k | 0 <= k < |p.allocations|
      ensures AllocationSound(g, q.holdings, p.allocations[k])
      ensures p.allocations[k].block == p.holdings[ticket].block ==>
                p.allocations[k].offset + p.allocations[k].size <= p.holdings[ticket].offset
    {
      assert AllocationSound(g, p.holdings, p.allocations[k]);
    }
  }

  lemma {:induction false} AllocatedSound<T>(g: Geometry, p: Pool<T>, ticket: T, size: nat, alignment: nat)
    requires g.Valid() && Sound(g, p) && ticket in p.holdings
    ensures var q := Allocated(g, p, ticket, size, alignment);
            q.Some? ==> Sound(g, q.value) && ticket in q.value.holdings
    decreases |p.free|
  {
    hide Sound, Fits;
    if Fits(g, p.holdings[ticket], size, alignment) {
      GrownSound(g, p, ticket, size, alignment);
    } else if p.free != [] {
      MovedOnSound(g, p, ticket);
      AllocatedSound(g, MovedOn(p, ticket), ticket, size, alignment);
    }
  }

  lemma {:induction false} WithoutMembers<T>(allocations: seq<Allocation<T>>, ticket: T)
    ensures forall a | a in Without(allocations, ticket) :: a in allocations && a.ticket != ticket
    ensures forall a | a in allocations && a.ticket != ticket :: a in Without(allocations, ticket)
    decreases |allocations|
  {
    if allocations != [] {
      var last := |allocations| - 1;
      WithoutMembers(allocations[..last], ticket);
      assert allocations == allocations[..last] + [allocations[last]];
    }
  }

  lemma {:induction false} WithoutOrdered<T>(allocations: seq<Allocation<T>>, ticket: T)
    requires Ordered(allocations)
    ensures Ordered(Without(allocations, ticket))
    decreases |allocations|
  {
    if allocations != [] {
      var last := |allocations| - 1;
      var before := allocations[..last];
      WithoutOrdered(before, ticket);
      WithoutMembers(before, ticket);
      var kept := Without(before, ticket);
      forall k | 0 <= k < |kept| && kept[k].block == allocations[last].block
        ensures kept[k].offset + kept[k].size <= allocations[last].offset
      {
        assert kept[k] in before;
        var i :| 0 <= i < last && allocations[i] == kept[k];
      }
    }
  }

  lemma ReturnedSound<T>(g: Geometry, p: Pool<T>, ticket: T)
    requires g.Valid() && Sound(g, p) && ticket in p.holdings
    ensures Sound(g, Returned(p, ticket))
  {
    var q, block := Returned(p, ticket), p.holdings[ticket].block;
    WithoutMembers(p.allocations, ticket);
    WithoutOrdered(p.allocations, ticket);
    assert FreeSound(g, q.free) by {
      assert HoldingSound(g, p.free, p.holdings[ticket]);
    }
    forall t | t in q.holdings ensures HoldingSound(g, q.free, q.holdings[t]) {
      assert HoldingSound(g, p.free, p.holdings[t]);
      assert p.holdings[t].held !! p.holdings[ticket].held;
    }
    forall k | 0 <= k < |q.allocations| ensures AllocationSound(g, q.holdings, q.allocations[k]) {
      assert q.allocations[k] in p.allocations;
    }
  }

  lemma StepSound<T>(g: Geometry, p: Pool<T>, call: Call<T>)
    requires g.Valid() && Sound(g, p)
    ensures Step(g, p, call).Some? ==> Sound(g, Step(g, p, call).value)
  {
    hide Sound;
    if Step(g, p, call).Some? {
      match call
      case Take(ticket) => TakenSound(g, p, ticket);
      case Allocate(ticket, size, alignment) => AllocatedSound(g, p, ticket, size, alignment);
      case Return(ticket) => ReturnedSound(g, p, ticket);
    }
  }

  lemma {:induction false} RunSound<T>(g: Geometry, p: Pool<T>, calls: seq<Call<T>>)
    requires g.Valid() && Sound(g, p)
    ensures Run(g, p, calls).Some? ==> Sound(g, Run(g, p, calls).value)
    decreases |calls|
  {
    hide Sound, Step;
    if calls != [] {
      RunSound(g, p, calls[..|calls| - 1]);
      var before := Run(g, p, calls[..|calls| - 1]);
      if before.Some? {
        StepSound(g, before.value, calls[|calls| - 1]);
      }
    }
  }

  // What is meant by safe, in addresses.
  ghost predicate RegionsApart(start1: nat, size1: nat, start2: nat, size2: nat) {
    start1 + size1 <= start2 || start2 + size2 <= start1
  }

  lemma BlocksApart(g: Geometry, b: nat, c: nat, offset1: nat, size1: nat, offset2: nat, size2: nat)
    requires b != c && offset1 + size1 <= g.blockSize && offset2 + size2 <= g.blockSize
    ensures RegionsApart(g.Address(b, offset1), size1, g.Address(c, offset2), size2)
  {
    var s := g.blockSize;
    if b < c {
      assert (b + 1) * s <= c * s;
    } else {
      assert (c + 1) * s <= b * s;
    }
  }

  lemma BlockInside(g: Geometry, b: nat)
    requires g.Valid() && b < g.Blocks()
    ensures g.Address(b, g.blockSize) <= g.start + g.totalSize
  {
    assert (b + 1) * g.blockSize <= g.Blocks() * g.blockSize;
  }

  ghost predicate AllocationsApart<T>(g: Geometry, p: Pool<T>) {
    forall j, k | 0 <= j < k < |p.allocations| ::
      var a, b := p.allocations[j], p.allocations[k];
      RegionsApart(g.Address(a.block, a.offset), a.size, g.Address(b.block, b.offset), b.size)
  }

  ghost predicate InOneOwnedBlock<T>(g: Geometry, p: Pool<T>, a: Allocation<T>) {
    && a.ticket in p.holdings && a.block in p.holdings[a.ticket].held && a.block !in p.free
    && a.offset + a.size <= g.blockSize
    && g.start <= g.Address(a.block, a.offset) && g.Address(a.block, a.offset) + a.size <= g.start + g.totalSize
  }

  ghost predicate MissesHeaders<T>(g: Geometry, p: Pool<T>, a: Allocation<T>) {
    forall t | t in p.holdings ::
      RegionsApart(g.Address(p.holdings[t].home, 0), HeaderSize, g.Address(a.block, a.offset), a.size)
  }

  /** In every run of calls that use tickets properly while free blocks suffice, the allocations
      of live tickets never overlap, each lies inside one block that its ticket was given and
      that is not free, and none touches a ticket, provided a ticket fits into a block. */
  lemma AllocationsAreSafe<T>(g: Geometry, calls: seq<Call<T>>)
    requires g.Valid() && Run(g, Initial(g), calls).Some?
    ensures var p := Run(g, Initial(g), calls).value;
            && AllocationsApart(g, p)
            && (forall a | a in p.allocations :: InOneOwnedBlock(g, p, a))
            && (HeaderSize <= g.blockSize ==> forall a | a in p.allocations :: MissesHeaders(g, p, a))
  {
    hide Run;
    assert Sound(g, Initial<T>(g));
    RunSound(g, Initial(g), calls);
    SoundIsSafe(g, Run(g, Initial(g), calls).value);
  }

  lemma SoundIsSafe<T>(g: Geometry, p: Pool<T>)
    requires g.Valid() && Sound(g, p)
    ensures AllocationsApart(g, p)
    ensures forall a | a in p.allocations :: InOneOwnedBlock(g, p, a)
    ensures HeaderSize <= g.blockSize ==> forall a | a in p.allocations :: MissesHeaders(g, p, a)
  {
    hide Geometry.Address;
    forall j, k | 0 <= j < k < |p.allocations|
      ensures var a, b := p.allocations[j], p.allocations[k];
              RegionsApart(g.Address(a.block, a.offset), a.size, g.Address(b.block, b.offset), b.size)
    {
      TwoApart(g, p, j, k);
    }
    forall a | a in p.allocations ensures InOneOwnedBlock(g, p, a) {
      OneInside(g, p, a);
    }
    if HeaderSize <= g.blockSize {
      forall a, t | a in p.allocations && t in p.holdings
        ensures RegionsApart(g.Address(p.holdings[t].home, 0), HeaderSize, g.Address(a.block, a.offset), a.size)
      {
        HeaderMissed(g, p, a, t);
      }
    }
  }

  lemma TwoApart<T>(g: Geometry, p: Pool<T>, j: nat, k: nat)
    requires g.Valid() && Sound(g, p) && j < k < |p.allocations|
    ensures var a, b := p.allocations[j], p.allocations[k];
            RegionsApart(g.Address(a.block, a.offset), a.size, g.Address(b.block, b.offset), b.size)
  {
    var a, b := p.allocations[j], p.allocations[k];
    assert AllocationSound(g, p.holdings, a) && AllocationSound(g, p.holdings, b);
    if a.block != b.block {
      BlocksApart(g, a.block, b.block, a.offset, a.size, b.offset, b.size);
    }
  }

  lemma OneInside<T>(g: Geometry, p: Pool<T>, a: Allocation<T>)
    requires g.Valid() && Sound(g, p) && a in p.allocations
    ensures InOneOwnedBlock(g, p, a)
  {
    assert AllocationSound(g, p.holdings, a);
    assert HoldingSound(g, p.free, p.holdings[a.ticket]);
    BlockInside(g, a.block);
  }

  lemma HeaderMissed<T>(g: Geometry, p: Pool<T>, a: Allocation<T>, t: T)
    requires g.Valid() && Sound(g, p) && a in p.allocations && t in p.holdings && HeaderSize <= g.blockSize
    ensures RegionsApart(g.Address(p.holdings[t].home, 0), HeaderSize, g.Address(a.block, a.offset), a.size)
  {
    assert AllocationSound(g, p.holdings, a);
    assert HoldingSound(g, p.free, p.holdings[t]);
    var home := p.holdings[t].home;
    if a.block == home {
      assert t == a.ticket;
    } else {
      BlocksApart(g, home, a.block, 0, HeaderSize, a.offset, a.size);
    }
  }

  /** An allocation succeeds exactly when it fits where the ticket stands or fits into a whole
      block and there is a free one; it then takes at most that one. One larger than a block
      eats up all free blocks. */
  lemma {:induction false} AllocationSucceeds<T>(g: Geometry, p: Pool<T>, ticket: T, size: nat, alignment: nat)
    requires ticket in p.holdings
    ensures var h, q := p.holdings[ticket], Allocated(g, p, ticket, size, alignment);
            && (q.Some? <==> Fits(g, h, size, alignment) || (size <= g.blockSize && p.free != []))
            && (q.Some? ==>
                  q.value ==
                    Grown(g, if Fits(g, h, size, alignment) then p else MovedOn(p, ticket), ticket, size, alignment))
    decreases |p.free|
  {
    if !Fits(g, p.holdings[ticket], size, alignment) && p.free != [] {
      AllocationSucceeds(g, MovedOn(p, ticket), ticket, size, alignment);
    }
  }

  // The blocks that live tickets allocate from, and the blocks nobody will ever use again.
  ghost function InUse<T>(holdings: map<T, Holding>): set<nat> {
    set t | t in holdings :: holdings[t].block
  }

  ghost function CurrentBlocks<T>(p: Pool<T>): set<nat> {
    InUse(p.holdings)
  }

  ghost function BlocksBelow(n: nat): (r: set<nat>)
    ensures |r| == n && forall b: nat :: b in r <==> b < n
  {
    if n == 0 then {} else BlocksBelow(n - 1) + {n - 1}
  }

  ghost function Elements(blocks: seq<nat>): set<nat> {
    set b | b in blocks
  }

  ghost function FreeBlocks<T>(p: Pool<T>): set<nat> {
    Elements(p.free)
  }

  ghost function RetiredBlocks<T>(g: Geometry, p: Pool<T>): set<nat>
    requires g.Valid()
  {
    BlocksBelow(g.Blocks()) - FreeBlocks(p) - CurrentBlocks(p)
  }

  lemma {:induction false} DistinctSize(free: seq<nat>)
    requires forall j, k | 0 <= j < k < |free| :: free[j] != free[k]
    ensures |Elements(free)| == |free|
    decreases |free|
  {
    if free != [] {
      var before, last := free[..|free| - 1], free[|free| - 1];
      DistinctSize(before);
      assert free == before + [last];
      assert Elements(free) == Elements(before) + {last} && last !in Elements(before);
    }
  }

  lemma {:induction false} OneEach<T>(holdings: map<T, Holding>)
    requires Apart(holdings) && forall t | t in holdings :: holdings[t].block in holdings[t].held
    ensures |InUse(holdings)| == |holdings|
    decreases |holdings|
  {
    if holdings.Keys != {} {
      var t :| t in holdings;
      var rest := holdings - {t};
      assert rest.Keys == holdings.Keys - {t};
      OneEach(rest);
      OneMore(holdings, t);
      forall u | u in rest ensures rest[u].block != holdings[t].block {
        assert holdings[u].held !! holdings[t].held;
      }
    }
  }

  lemma OneMore<T>(holdings: map<T, Holding>, t: T)
    requires t in holdings
    ensures InUse(holdings) == InUse(holdings - {t}) + {holdings[t].block}
  {
    forall b | b in InUse(holdings) ensures b in InUse(holdings - {t}) + {holdings[t].block} {
      var u :| u in holdings && holdings[u].block == b;
      assert u != t ==> u in holdings - {t};
    }
  }

  /** No block is ever lost from the count: the free ones, one for every live ticket and the
      retired ones are all there are, and they are different ones. */
  lemma BlocksAddUp<T>(g: Geometry, calls: seq<Call<T>>)
    requires g.Valid() && Run(g, Initial(g), calls).Some?
    ensures var p := Run(g, Initial(g), calls).value;
            && FreeBlocks(p) !! CurrentBlocks(p) && FreeBlocks(p) + CurrentBlocks(p) <= BlocksBelow(g.Blocks())
            && |p.free| + |p.holdings| + |RetiredBlocks(g, p)| == g.Blocks()
  {
    hide Run;
    assert Sound(g, Initial<T>(g));
    RunSound(g, Initial(g), calls);
    SoundAddsUp(g, Run(g, Initial(g), calls).value);
  }

  lemma SoundAddsUp<T>(g: Geometry, p: Pool<T>)
    requires g.Valid() && Sound(g, p)
    ensures FreeBlocks(p) !! CurrentBlocks(p) && FreeBlocks(p) + CurrentBlocks(p) <= BlocksBelow(g.Blocks())
    ensures |p.free| + |p.holdings| + |RetiredBlocks(g, p)| == g.Blocks()
  {
    DistinctSize(p.free);
    OneEach(p.holdings);
    CurrentIsNotFree(g, p);
    Partition(BlocksBelow(g.Blocks()), FreeBlocks(p), CurrentBlocks(p));
  }

  lemma CurrentIsNotFree<T>(g: Geometry, p: Pool<T>)
    requires g.Valid() && Sound(g, p)
    ensures FreeBlocks(p) !! CurrentBlocks(p) && FreeBlocks(p) + CurrentBlocks(p) <= BlocksBelow(g.Blocks())
  {
    forall b | b in CurrentBlocks(p) ensures b < g.Blocks() && b !in FreeBlocks(p) {
      var t :| t in p.holdings && p.holdings[t].block == b;
      assert HoldingSound(g, p.free, p.holdings[t]);
    }
  }

  lemma Partition(all: set<nat>, a: set<nat>, b: set<nat>)
    requires a !! b && a + b <= all
    ensures |a| + |b| + |all - a - b| == |all|
  {
    assert |a + b| == |a| + |b|;
    assert all == (a + b) + (all - a - b);
  }

  /** A retired block stays retired, whatever is called. */
  lemma RetiredForever<T>(g: Geometry, p: Pool<T>, call: Call<T>)
    requires g.Valid() && Sound(g, p) && Step(g, p, call).Some?
    ensures RetiredBlocks(g, p) <= RetiredBlocks(g, Step(g, p, call).value)
  {
    match call
    case Take(ticket) => TakenRetires(g, p, ticket);
    case Allocate(ticket, size, alignment) => AllocatedRetires(g, p, ticket, size, alignment);
    case Return(ticket) => ReturnedRetires(g, p, ticket);
  }

  // The blocks in play.
  ghost function UsableBlocks<T>(p: Pool<T>): set<nat> {
    FreeBlocks(p) + CurrentBlocks(p)
  }

  lemma TakenRetires<T>(g: Geometry, p: Pool<T>, ticket: T)
    requires g.Valid() && p.free != [] && ticket !in p.holdings
    ensures UsableBlocks(Taken(p, ticket)) <= UsableBlocks(p)
    ensures RetiredBlocks(g, p) <= RetiredBlocks(g, Taken(p, ticket))
  {
    var q := Taken(p, ticket);
    forall b | b in CurrentBlocks(q) ensures b in UsableBlocks(p) {
      var t :| t in q.holdings && q.holdings[t].block == b;
      assert t != ticket ==> t in p.holdings;
    }
  }

  lemma AllocatedRetires<T>(g: Geometry, p: Pool<T>, ticket: T, size: nat, alignment: nat)
    requires g.Valid() && ticket in p.holdings && Allocated(g, p, ticket, size, alignment).Some?
    ensures var q := Allocated(g, p, ticket, size, alignment).value;
            UsableBlocks(q) <= UsableBlocks(p) && RetiredBlocks(g, p) <= RetiredBlocks(g, q)
  {
    AllocationSucceeds(g, p, ticket, size, alignment);
    var q := Allocated(g, p, ticket, size, alignment).value;
    forall b | b in CurrentBlocks(q) ensures b in UsableBlocks(p) {
      var t :| t in q.holdings && q.holdings[t].block == b;
      assert t in p.holdings;
    }
  }

  lemma ReturnedRetires<T>(g: Geometry, p: Pool<T>, ticket: T)
    requires g.Valid() && ticket in p.holdings
    ensures UsableBlocks(Returned(p, ticket)) <= UsableBlocks(p)
    ensures RetiredBlocks(g, p) <= RetiredBlocks(g, Returned(p, ticket))
  {
    var q := Returned(p, ticket);
    forall b | b in CurrentBlocks(q) ensures b in UsableBlocks(p) {
      var t :| t in q.holdings && q.holdings[t].block == b;
      assert t in p.holdings;
    }
  }

  /** A returned ticket gives back all it was given exactly when it never moved on to another
      block; any block it left behind is lost. */
  lemma ReturnGivesBackAll<T>(g: Geometry, p: Pool<T>, ticket: T)
    requires g.Valid() && Sound(g, p) && ticket in p.holdings
    ensures var h, q := p.holdings[ticket], Returned(p, ticket);
            && (h.held <= FreeBlocks(q) <==> h.held == {h.block})
            && h.held - {h.block} <= RetiredBlocks(g, q)
  {
    var h, q := p.holdings[ticket], Returned(p, ticket);
    assert HoldingSound(g, p.free, h);
    forall t | t in q.holdings ensures q.holdings[t].block !in h.held {
      assert HoldingSound(g, p.free, p.holdings[t]);
      assert p.holdings[t].held !! h.held;
    }
  }
}
