/** The fixed-size block pool. Free blocks form a list whose links are stored in
    the first bytes of the free blocks themselves. */
module MemoryPools {
  import opened Sequences
  import opened RawMemory

  /** `count` blocks per slab, `size` bytes per block, `width` bytes per pointer. A
      block must be able to hold the link that it carries while it is free. */
  datatype Config = Config(count: nat, size: nat, width: nat)

  ghost predicate Usable(c: Config) {
    c.count >= 1 && c.size >= c.width >= 1
  }

  /** The pool's one field and the memory it works on. */
  datatype Pool = Pool(head: nat, memory: Memory)

  /** One past the last byte of `count` blocks of `size` bytes from `base`; the
      product is spelled as a sum to keep the arithmetic linear. */
  ghost function SlabEnd(base: int, count: nat, size: nat): int
    decreases count
  {
    if count == 0 then base else SlabEnd(base + size, count - 1, size)
  }

  lemma {:induction false} SlabEndIs(base: int, count: nat, size: nat)
    ensures SlabEnd(base, count, size) == base + count * size
    decreases count
  {
    if count > 0 {
      SlabEndIs(base + size, count - 1, size);
      assert count * size == size + (count - 1) * size;
    }
  }

  lemma {:induction false} SlabEndGrows(base: int, count: nat, size: nat)
    ensures SlabEnd(base, count, size) >= if count == 0 then base else base + size
    decreases count
  {
    if count > 0 {
      SlabEndGrows(base + size, count - 1, size);
    }
  }

  /** What `new uint8_t[]` answered: the start of memory that was not in use, and
      the bytes that happen to be there. */
  datatype Region = Region(base: int, garbage: seq<Byte>)

  ghost function Limit(c: Config): nat {
    Power256(c.width)
  }

  ghost predicate IsFresh(c: Config, m: Memory, r: Region) {
    var end := SlabEnd(r.base, c.count, c.size);
    && 0 < r.base
    && end <= Limit(c)
    && r.base + |r.garbage| == end
    && forall a :: r.base <= a < end ==> a !in m
  }

  // ---------------------------------------------------------------- the code's steps

  /** Blocks of `size` bytes, one after the other from `base`. */
  ghost function SlabBlocks(base: int, count: nat, size: nat): (s: seq<int>)
    ensures |s| == count
    decreases count
  {
    if count == 0 then [] else [base] + SlabBlocks(base + size, count - 1, size)
  }

  /** The linking loop of AllocateBlock from the block at `current`, with `count`
      blocks left. */
  ghost function Link(m: Memory, current: nat, count: nat, size: nat, width: nat): Memory
    requires count >= 1
    decreases count
  {
    if count == 1 then WritePointer(m, current, NULL, width)
    else Link(WritePointer(m, current, current + size, width), current + size, count - 1, size, width)
  }

  lemma Grows(k: nat, size: nat)
    requires k >= 1
    ensures k * size >= size
  {
  }

  /** One round of the loop. */
  lemma LinkOne(m: Memory, current: nat, count: nat, size: nat, width: nat)
    requires count > 1
    ensures Link(m, current, count, size, width)
            == Link(WritePointer(m, current, current + size, width), current + size, count - 1, size, width)
  {
  }

  ghost function AllocateBlockStep(c: Config, p: Pool, r: Region): Pool
    requires Usable(c) && IsFresh(c, p.memory, r)
  {
    Pool(r.base, Link(WriteBytes(p.memory, r.base, r.garbage), r.base, c.count, c.size, c.width))
  }

  /** The pool after the null test of Allocate. */
  ghost function Refilled(c: Config, p: Pool, r: Region): Pool
    requires Usable(c) && (p.head == NULL ==> IsFresh(c, p.memory, r))
  {
    if p.head == NULL then AllocateBlockStep(c, p, r) else p
  }

  ghost function AllocateStep(c: Config, p: Pool, r: Region): Pool
    requires Usable(c) && (p.head == NULL ==> IsFresh(c, p.memory, r))
    requires Allocated(Refilled(c, p, r).memory, Refilled(c, p, r).head, c.width)
  {
    var q := Refilled(c, p, r);
    q.(head := ReadPointer(q.memory, q.head, c.width))
  }

  ghost function DelocateStep(c: Config, p: Pool, block: nat): Pool {
    Pool(block, WritePointer(p.memory, block, p.head, c.width))
  }

  // ---------------------------------------------------------------- the invariant

  /** Following the embedded links from `head` visits exactly `free` and then
      reads null. */
  ghost predicate Chain(m: Memory, head: nat, free: seq<int>, width: nat)
    decreases |free|
  {
    if free == [] then head == NULL
    else
      && head != NULL
      && head == free[0]
      && Allocated(m, head, width)
      && Chain(m, ReadPointer(m, head, width), free[1..], width)
  }

  ghost predicate Apart(x: int, y: int, size: nat) {
    x + size <= y || y + size <= x
  }

  ghost predicate NonOverlapping(blocks: seq<int>, size: nat) {
    forall i, j :: 0 <= i < j < |blocks| ==> Apart(blocks[i], blocks[j], size)
  }

  /** The bookkeeping of a run: where the slabs start, all blocks ever carved, the
      free list, the blocks in client hands and the most there ever were. */
  datatype Books = Books(bases: seq<int>, blocks: seq<int>, free: seq<int>, live: set<int>, peak: nat)

  const NO_BOOKS := Books([], [], [], {}, 0)

  /** The blocks of the slabs at the given bases. */
  ghost function BlocksOf(bases: seq<int>, count: nat, size: nat): seq<int> {
    if bases == [] then []
    else
      var last := |bases| - 1;
      BlocksOf(bases[..last], count, size) + SlabBlocks(bases[last], count, size)
  }

  function BlockAt(base: int, i: nat, size: nat): int {
    base + i * size
  }

  ghost predicate BlocksAreSound(c: Config, m: Memory, blocks: seq<int>) {
    && NonOverlapping(blocks, c.size)
    && (forall i :: 0 <= i < |blocks| ==> 0 < blocks[i] && blocks[i] + c.size <= Limit(c))
    && forall i :: 0 <= i < |blocks| ==> Allocated(m, blocks[i], c.size)
  }

  /** Free and live blocks partition the slab blocks. */
  ghost predicate Partition(g: Books) {
    multiset(g.free) + multiset(g.live) == multiset(g.blocks)
  }

  /** The number of blocks in `slabs` slabs, again as a sum. */
  ghost function Total(slabs: nat, count: nat): nat {
    if slabs == 0 then 0 else count + Total(slabs - 1, count)
  }

  lemma {:induction false} TotalIs(slabs: nat, count: nat)
    ensures Total(slabs, count) == slabs * count
  {
    if slabs > 0 {
      TotalIs(slabs - 1, count);
      assert slabs * count == count + (slabs - 1) * count;
    }
  }

  ghost predicate SlabsCounted(c: Config, g: Books) {
    && |g.blocks| == Total(|g.bases|, c.count)
    && |g.live| <= g.peak <= Total(|g.bases|, c.count)
    && (g.bases != [] ==> Total(|g.bases| - 1, c.count) < g.peak)
  }

  /** The blocks are those of the slabs. */
  ghost predicate Carved(c: Config, g: Books) {
    g.blocks == BlocksOf(g.bases, c.count, c.size)
  }

  ghost predicate Inv(c: Config, p: Pool, g: Books) {
    && Usable(c)
    && p.head < Limit(c)
    && Chain(p.memory, p.head, g.free, c.width)
    && BlocksAreSound(c, p.memory, g.blocks)
    && Carved(c, g)
    && Partition(g)
    && SlabsCounted(c, g)
  }

  // ---------------------------------------------------------------- chains

  lemma {:induction false} ChainUnchanged(m: Memory, m': Memory, head: nat, free: seq<int>, width: nat)
    requires Chain(m, head, free, width)
    requires forall f :: f in free ==> SameBytes(m, m', f, width)
    ensures Chain(m', head, free, width)
    decreases |free|
  {
    if free != [] {
      ReadUnchanged(m, m', head, width);
      ChainUnchanged(m, m', ReadPointer(m, head, width), free[1..], width);
    }
  }

  lemma {:induction false} SlabBlocksAt(base: int, count: nat, size: nat, i: nat)
    requires i < count
    ensures SlabBlocks(base, count, size)[i] == base + i * size
    ensures i * size + size <= count * size
    decreases count
  {
    assert count * size == size + (count - 1) * size;
    if i == 0 {
      Grows(count, size);
    } else {
      SlabBlocksAt(base + size, count - 1, size, i - 1);
      assert i * size == size + (i - 1) * size;
    }
  }

  lemma SlabBlocksApart(base: int, count: nat, size: nat)
    ensures NonOverlapping(SlabBlocks(base, count, size), size)
    ensures forall i :: 0 <= i < count ==>
              base <= SlabBlocks(base, count, size)[i] <= SlabEnd(base, count, size) - size
  {
    var s := SlabBlocks(base, count, size);
    forall i | 0 <= i < count
      ensures base <= s[i] <= SlabEnd(base, count, size) - size
    {
      SlabEndIs(base, count, size);
      SlabBlocksAt(base, count, size, i);
    }
    forall i, j | 0 <= i < j < count
      ensures Apart(s[i], s[j], size)
    {
      SlabBlocksAt(base, count, size, i);
      SlabBlocksAt(base, count, size, j);
      assert j * size == i * size + (j - i) * size;
      Grows(j - i, size);
    }
  }

  ghost predicate ChangedOnlyIn(m: Memory, m': Memory, from: int, to: int) {
    && (forall a :: a in m' <==> a in m)
    && forall a :: a in m && !(from <= a < to) ==> m'[a] == m[a]
  }

  /** The linking loop writes only inside its blocks. */
  lemma {:induction false} LinkFrame(m: Memory, current: nat, count: nat, size: nat, width: nat)
    requires count >= 1 && size >= width
    requires forall a :: current <= a < SlabEnd(current, count, size) ==> a in m
    ensures ChangedOnlyIn(m, Link(m, current, count, size, width), current, SlabEnd(current, count, size))
    decreases count
  {
    SlabEndGrows(current, count, size);
    SlabEndGrows(current + size, count - 1, size);
    if count > 1 {
      LinkFrame(WritePointer(m, current, current + size, width), current + size, count - 1, size, width);
    }
  }

  lemma LinkStays(m: Memory, m': Memory, current: nat, next: nat, to: int, width: nat)
    requires next < Power256(width) && current + width <= next
    requires ChangedOnlyIn(WritePointer(m, current, next, width), m', next, to)
    ensures Allocated(m', current, width) && ReadPointer(m', current, width) == next
  {
    ReadOwnWrite(m, current, next, width);
    ReadUnchanged(WritePointer(m, current, next, width), m', current, width);
  }

  lemma ChainGrows(m: Memory, head: nat, free: seq<int>, width: nat)
    requires 0 < head && Allocated(m, head, width)
    requires Chain(m, ReadPointer(m, head, width), free, width)
    ensures Chain(m, head, [head] + free, width)
  {
  }

  lemma LinkLast(m: Memory, current: nat, size: nat, width: nat)
    requires 0 < current && Allocated(m, current, width)
    ensures Chain(Link(m, current, 1, size, width), current, SlabBlocks(current, 1, size), width)
  {
    var m' := WritePointer(m, current, NULL, width);
    ReadOwnWrite(m, current, NULL, width);
    ChainGrows(m', current, [], width);
    assert SlabBlocks(current, 1, size) == [current];
  }

  /** The linking loop leaves its blocks chained in address order. */
  lemma {:induction false} LinkChains(m: Memory, current: nat, count: nat, size: nat, width: nat)
    requires 0 < current && count >= 1 && size >= width >= 1
    requires SlabEnd(current, count, size) <= Power256(width)
    requires forall a :: current <= a < SlabEnd(current, count, size) ==> a in m
    ensures Chain(Link(m, current, count, size, width), current, SlabBlocks(current, count, size), width)
    decreases count
  {
    SlabEndGrows(current, count, size);
    if count == 1 {
      LinkLast(m, current, size, width);
    } else {
      SlabEndGrows(current + size, count - 1, size);
      LinkOne(m, current, count, size, width);
      var next := current + size;
      var linked := WritePointer(m, current, next, width);
      var m' := Link(linked, next, count - 1, size, width);
      LinkChains(linked, next, count - 1, size, width);
      LinkFrame(linked, next, count - 1, size, width);
      LinkStays(m, m', current, next, SlabEnd(next, count - 1, size), width);
      ChainGrows(m', current, SlabBlocks(next, count - 1, size), width);
      assert SlabBlocks(current, count, size) == [current] + SlabBlocks(next, count - 1, size);
    }
  }

  // ---------------------------------------------------------------- single steps

  /** The partition in words: every block is free or live and not both, and
      different blocks do not overlap. */
  lemma PartitionMeans(c: Config, p: Pool, g: Books)
    requires Inv(c, p, g)
    ensures forall x :: x in g.blocks <==> x in g.free || x in g.live
    ensures forall x :: x in g.free ==> x !in g.live
    ensures forall x, y :: x in g.blocks && y in g.blocks && x != y ==> Apart(x, y, c.size)
    ensures forall x :: x in g.blocks ==> Allocated(p.memory, x, c.size) && 0 < x && x + c.size <= Limit(c)
    ensures |g.free| + |g.live| == Total(|g.bases|, c.count)
  {
    PartitionCovers(g);
    FreeIsNotLive(c, g);
  }

  lemma PartitionCovers(g: Books)
    requires Partition(g)
    ensures forall x :: x in g.blocks <==> x in g.free || x in g.live
    ensures |g.free| + |g.live| == |g.blocks|
  {
    assert forall x :: x in g.blocks <==> x in multiset(g.blocks);
    assert forall x :: x in g.free <==> x in multiset(g.free);
    assert |multiset(g.free) + multiset(g.live)| == |g.blocks|;
  }

  lemma FreeIsNotLive(c: Config, g: Books)
    requires Partition(g) && NonOverlapping(g.blocks, c.size) && c.size >= 1
    ensures forall x :: x in g.free ==> x !in g.live
  {
    forall x | x in g.free
      ensures x !in g.live
    {
      DistinctIsCountedOnce(g.blocks, x);
      assert multiset(g.free)[x] + multiset(g.live)[x] == multiset(g.blocks)[x];
    }
  }

  lemma FreeIsDistinct(c: Config, g: Books)
    requires Partition(g) && NonOverlapping(g.blocks, c.size) && c.size >= 1
    ensures forall i, j :: 0 <= i < j < |g.free| ==> g.free[i] != g.free[j]
  {
    forall x | x in g.free
      ensures multiset(g.free)[x] == 1
    {
      DistinctIsCountedOnce(g.blocks, x);
      assert multiset(g.free)[x] + multiset(g.live)[x] == multiset(g.blocks)[x];
    }
    CountedOnceIsDistinct(g.free);
  }

  /** The bookkeeping after the null test of Allocate: a new slab when nothing is
      free. */
  ghost function Restocked(c: Config, g: Books, r: Region): (g': Books)
    requires Usable(c)
    ensures g'.free != []
  {
    if g.free != [] then g
    else
      var more := SlabBlocks(r.base, c.count, c.size);
      g.(blocks := g.blocks + more, bases := g.bases + [r.base], free := more)
  }

  ghost function BooksAfterAllocate(c: Config, g: Books, r: Region): Books
    requires Usable(c)
  {
    var g1 := Restocked(c, g, r);
    var live := g1.live + {g1.free[0]};
    g1.(free := g1.free[1..], live := live, peak := if |live| > g1.peak then |live| else g1.peak)
  }

  ghost function BooksAfterDelocate(g: Books, block: int): Books {
    g.(free := [block] + g.free, live := g.live - {block})
  }

  /** AllocateBlock adds one slab of chained blocks and touches no older block. */
  lemma AllocateBlockAddsSlab(c: Config, p: Pool, g: Books, r: Region)
    requires Inv(c, p, g) && g.free == [] && IsFresh(c, p.memory, r)
    ensures var q := AllocateBlockStep(c, p, r);
            var more := SlabBlocks(r.base, c.count, c.size);
            && Chain(q.memory, q.head, more, c.width)
            && BlocksAreSound(c, q.memory, g.blocks + more)
            && Extends(p.memory, q.memory)
  {
    var filled := WriteBytes(p.memory, r.base, r.garbage);
    var q := AllocateBlockStep(c, p, r);
    var more := SlabBlocks(r.base, c.count, c.size);
    SlabEndGrows(r.base, c.count, c.size);
    LinkChains(filled, r.base, c.count, c.size, c.width);
    LinkFrame(filled, r.base, c.count, c.size, c.width);
    SlabBlocksApart(r.base, c.count, c.size);
    assert Extends(p.memory, q.memory);
    forall i | 0 <= i < |more|
      ensures Allocated(q.memory, more[i], c.size)
    {
      assert forall a :: more[i] <= a < more[i] + c.size ==> a in filled;
    }
    forall i, j | 0 <= i < |g.blocks| && 0 <= j < |more|
      ensures Apart(g.blocks[i], more[j], c.size)
    {
      OldBlockAvoidsRegion(c, p.memory, r, g.blocks[i]);
    }
    SoundTogether(c, p.memory, q.memory, g.blocks, more);
  }

  lemma OldBlockAvoidsRegion(c: Config, m: Memory, r: Region, block: int)
    requires Usable(c) && IsFresh(c, m, r) && Allocated(m, block, c.size)
    ensures block + c.size <= r.base || SlabEnd(r.base, c.count, c.size) <= block
  {
    SlabEndGrows(r.base, c.count, c.size);
    assert block in m;
    assert r.base !in m;
  }

  lemma SoundTogether(c: Config, m: Memory, m': Memory, older: seq<int>, more: seq<int>)
    requires BlocksAreSound(c, m, older) && forall a :: a in m ==> a in m'
    requires BlocksAreSound(c, m', more)
    requires forall i, j :: 0 <= i < |older| && 0 <= j < |more| ==> Apart(older[i], more[j], c.size)
    ensures BlocksAreSound(c, m', older + more)
  {
  }

  /** After the null test there is a free block at the head, and no byte that was in
      use has changed. */
  lemma RefilledIsSound(c: Config, p: Pool, g: Books, r: Region)
    requires Inv(c, p, g) && (p.head == NULL ==> IsFresh(c, p.memory, r))
    ensures var q := Refilled(c, p, r);
            var g1 := Restocked(c, g, r);
            && Chain(q.memory, q.head, g1.free, c.width)
            && BlocksAreSound(c, q.memory, g1.blocks)
            && Carved(c, g1)
            && Partition(g1)
            && Extends(p.memory, q.memory)
  {
    if g.free == [] {
      AllocateBlockAddsSlab(c, p, g, r);
      assert (g.bases + [r.base])[..|g.bases|] == g.bases;
      var more := SlabBlocks(r.base, c.count, c.size);
      assert multiset(g.blocks + more) == multiset(g.blocks) + multiset(more);
    }
  }

  /** Allocate hands out a block that no client holds and changes no byte that was
      in use. */
  lemma AllocateKeepsInv(c: Config, p: Pool, g: Books, r: Region)
    requires Inv(c, p, g) && (p.head == NULL ==> IsFresh(c, p.memory, r))
    ensures var q := Refilled(c, p, r);
            && Allocated(q.memory, q.head, c.width)
            && q.head != NULL
            && q.head !in g.live
            && BooksAfterAllocate(c, g, r).live == g.live + {q.head}
    ensures Inv(c, AllocateStep(c, p, r), BooksAfterAllocate(c, g, r))
    ensures Extends(p.memory, AllocateStep(c, p, r).memory)
  {
    RefilledIsSound(c, p, g, r);
    TakeFirstKeepsPartition(c, Restocked(c, g, r));
    AllocateKeepsCount(c, g, r);
  }

  lemma TakeFirstKeepsPartition(c: Config, g: Books)
    requires g.free != [] && Partition(g) && NonOverlapping(g.blocks, c.size) && c.size >= 1
    ensures g.free[0] !in g.live
    ensures Partition(g.(free := g.free[1..], live := g.live + {g.free[0]}))
    ensures |g.live + {g.free[0]}| == |g.live| + 1
  {
    var first := g.free[0];
    DistinctIsCountedOnce(g.blocks, first);
    assert g.free == [first] + g.free[1..];
    assert multiset(g.free) == multiset{first} + multiset(g.free[1..]);
    assert first !in g.live;
    assert multiset(g.live + {first}) == multiset(g.live) + multiset{first};
  }

  lemma AllocateKeepsCount(c: Config, g: Books, r: Region)
    requires Usable(c) && Partition(g) && SlabsCounted(c, g)
    requires |BooksAfterAllocate(c, g, r).live| == |g.live| + 1
    ensures SlabsCounted(c, BooksAfterAllocate(c, g, r))
  {
    PartitionCovers(g);
    assert |g.bases + [r.base]| == |g.bases| + 1;
    assert Total(|g.bases| + 1, c.count) == c.count + Total(|g.bases|, c.count);
  }

  lemma ReturnKeepsPartition(c: Config, g: Books, block: int)
    requires Partition(g) && SlabsCounted(c, g) && block in g.live
    ensures Partition(BooksAfterDelocate(g, block)) && SlabsCounted(c, BooksAfterDelocate(g, block))
  {
  }

  /** Delocate puts the block at the front of the free list; only the block's own
      link bytes change. */
  lemma DelocateKeepsInv(c: Config, p: Pool, g: Books, block: nat)
    requires Inv(c, p, g) && block in g.live
    ensures Inv(c, DelocateStep(c, p, block), BooksAfterDelocate(g, block))
  {
    PartitionMeans(c, p, g);
    ReturnKeepsPartition(c, g, block);
    var q := DelocateStep(c, p, block);
    assert block in g.blocks;
    ReadOwnWrite(p.memory, block, p.head, c.width);
    assert Chain(q.memory, p.head, g.free, c.width) by {
      forall f | f in g.free
        ensures SameBytes(p.memory, q.memory, f, c.width)
      {
        assert f in g.blocks && Apart(f, block, c.size);
      }
      ChainUnchanged(p.memory, q.memory, p.head, g.free, c.width);
    }
    var free := [block] + g.free;
    assert free[1..] == g.free;
    assert Chain(q.memory, block, free, c.width);
    StillSound(c, p.memory, q.memory, g.blocks);
  }

  lemma StillSound(c: Config, m: Memory, m': Memory, blocks: seq<int>)
    requires BlocksAreSound(c, m, blocks) && forall a :: a in m ==> a in m'
    ensures BlocksAreSound(c, m', blocks)
  {
  }

  /** Allocate undoes Delocate: with no other call in between, the block that was
      returned is handed out again, head and books are as before, and no byte outside
      the block's link has changed. */
  lemma ReturnedBlockComesBack(c: Config, p: Pool, g: Books, block: nat, r: Region)
    requires Inv(c, p, g) && block in g.live
    ensures var q := DelocateStep(c, p, block);
            && q.head == block != NULL
            && Refilled(c, q, r) == q
            && Allocated(q.memory, q.head, c.width)
            && AllocateStep(c, q, r).head == p.head
            && ChangedOnlyIn(p.memory, AllocateStep(c, q, r).memory, block, block + c.width)
            && BooksAfterAllocate(c, BooksAfterDelocate(g, block), r) == g
  {
    PartitionMeans(c, p, g);
    ReadOwnWrite(p.memory, block, p.head, c.width);
    assert ([block] + g.free)[1..] == g.free;
    assert g.live - {block} + {block} == g.live;
  }

  /** A client's write into a block it holds. */
  lemma PokeKeepsInv(c: Config, p: Pool, g: Books, block: int, offset: nat, value: Byte)
    requires Inv(c, p, g) && block in g.live && offset < c.size
    ensures Inv(c, p.(memory := p.memory[block + offset := value]), g)
  {
    PartitionMeans(c, p, g);
    var m' := p.memory[block + offset := value];
    assert block in g.blocks;
    ChainUnchanged(p.memory, m', p.head, g.free, c.width);
  }

  // ---------------------------------------------------------------- runs

  datatype Step =
    | Allocate(region: Region)
    | Delocate(block: nat)
    | Poke(block: nat, offset: nat, value: Byte)

  datatype World = World(pool: Pool, books: Books)

  const START := World(Pool(NULL, map[]), NO_BOOKS)

  /** What the pool's users must respect: return and write only what they hold. */
  ghost predicate Enabled(c: Config, w: World, step: Step) {
    match step
    case Allocate(r) => w.pool.head == NULL ==> IsFresh(c, w.pool.memory, r)
    case Delocate(block) => block in w.books.live
    case Poke(block, offset, _) => block in w.books.live && offset < c.size
  }

  ghost function Next(c: Config, w: World, step: Step): World
    requires Inv(c, w.pool, w.books) && Enabled(c, w, step)
  {
    match step
    case Allocate(r) =>
      AllocateKeepsInv(c, w.pool, w.books, r);
      World(AllocateStep(c, w.pool, r), BooksAfterAllocate(c, w.books, r))
    case Delocate(block) => World(DelocateStep(c, w.pool, block), BooksAfterDelocate(w.books, block))
    case Poke(block, offset, value) =>
      w.(pool := w.pool.(memory := w.pool.memory[block + offset := value]))
  }

  lemma NextKeepsInv(c: Config, w: World, step: Step)
    requires Inv(c, w.pool, w.books) && Enabled(c, w, step)
    ensures Inv(c, Next(c, w, step).pool, Next(c, w, step).books)
  {
    match step
    case Allocate(r) => AllocateKeepsInv(c, w.pool, w.books, r);
    case Delocate(block) => DelocateKeepsInv(c, w.pool, w.books, block);
    case Poke(block, offset, value) => PokeKeepsInv(c, w.pool, w.books, block, offset, value);
  }

  ghost predicate Legal(c: Config, w: World, steps: seq<Step>)
    requires Inv(c, w.pool, w.books)
    decreases |steps|
  {
    steps == [] ||
    (Enabled(c, w, steps[0]) && (NextKeepsInv(c, w, steps[0]); Legal(c, Next(c, w, steps[0]), steps[1..])))
  }

  /** Every reachable world is sound, by construction of Exec's result. */
  ghost function Exec(c: Config, w: World, steps: seq<Step>): (w': World)
    requires Inv(c, w.pool, w.books) && Legal(c, w, steps)
    ensures Inv(c, w'.pool, w'.books)
    decreases |steps|
  {
    if steps == [] then w
    else
      NextKeepsInv(c, w, steps[0]);
      Exec(c, Next(c, w, steps[0]), steps[1..])
  }

  lemma StartIsSound(c: Config)
    requires Usable(c)
    ensures Inv(c, START.pool, START.books)
  {
  }

  function CeilDiv(x: nat, y: nat): nat
    requires y >= 1
  {
    (x + y - 1) / y
  }

  lemma CeilDivBetween(x: nat, y: nat, q: nat)
    requires y >= 1 && x <= q * y && (q == 0 ==> x == 0) && (q > 0 ==> (q - 1) * y < x)
    ensures CeilDiv(x, y) == q
  {
    if q > 0 {
      var r := x - (q - 1) * y - 1;
      assert x + y - 1 == q * y + r by {
        assert (q - 1) * y == q * y - y;
      }
      assert 0 <= r < y by {
        assert (q - 1) * y == q * y - y;
      }
      QuotientIs(q, r, y);
    } else {
      QuotientIs(0, y - 1, y);
    }
  }

  /** The address is a whole number of blocks, fewer than `count`, from the base. */
  ghost predicate StandsIn(x: int, base: int, count: nat, size: nat) {
    exists i :: 0 <= i < count && x == BlockAt(base, i, size)
  }

  ghost predicate StandsInSlab(x: int, bases: seq<int>, count: nat, size: nat) {
    exists k :: 0 <= k < |bases| && StandsIn(x, bases[k], count, size)
  }

  lemma InSlab(base: int, count: nat, size: nat, x: int)
    ensures x in SlabBlocks(base, count, size) <==> StandsIn(x, base, count, size)
  {
    var s := SlabBlocks(base, count, size);
    forall i | 0 <= i < count
      ensures s[i] == BlockAt(base, i, size)
    {
      SlabBlocksAt(base, count, size, i);
    }
  }

  lemma StandsInLast(bases: seq<int>, count: nat, size: nat, x: int)
    requires bases != []
    ensures var last := |bases| - 1;
            StandsInSlab(x, bases, count, size)
            <==> StandsInSlab(x, bases[..last], count, size) || StandsIn(x, bases[last], count, size)
  {
    var init := bases[..|bases| - 1];
    assert forall k :: 0 <= k < |init| ==> init[k] == bases[k];
  }

  lemma {:induction false} BlocksStand(bases: seq<int>, count: nat, size: nat, x: int)
    ensures x in BlocksOf(bases, count, size) <==> StandsInSlab(x, bases, count, size)
  {
    if bases != [] {
      var last := |bases| - 1;
      var (older, more) := (BlocksOf(bases[..last], count, size), SlabBlocks(bases[last], count, size));
      BlocksStand(bases[..last], count, size, x);
      InSlab(bases[last], count, size, x);
      StandsInLast(bases, count, size, x);
      assert x in older + more <==> x in older || x in more;
    }
  }

  /** In every run: the embedded chain from the head visits the free blocks, each
      once, and ends in null; the blocks stand at whole multiples of the block size
      from the slab bases and do not overlap; each is free or live and not both; and
      exactly as many slabs were made as the peak demand needs. */
  lemma EveryRunIsSound(c: Config, steps: seq<Step>)
    requires Usable(c)
    requires (StartIsSound(c); Legal(c, START, steps))
    ensures var w := (StartIsSound(c); Exec(c, START, steps));
            && Chain(w.pool.memory, w.pool.head, w.books.free, c.width)
            && (forall x :: x in w.books.blocks <==> x in w.books.free || x in w.books.live)
            && (forall x :: x in w.books.free ==> x !in w.books.live)
            && (forall i, j :: 0 <= i < j < |w.books.free| ==> w.books.free[i] != w.books.free[j])
            && NonOverlapping(w.books.blocks, c.size)
            && (forall x :: x in w.books.blocks <==> StandsInSlab(x, w.books.bases, c.count, c.size))
            && |w.books.free| + |w.books.live| == |w.books.bases| * c.count
            && |w.books.bases| == CeilDiv(w.books.peak, c.count)
  {
    StartIsSound(c);
    var w := Exec(c, START, steps);
    PartitionMeans(c, w.pool, w.books);
    FreeIsDistinct(c, w.books);
    forall x
      ensures x in w.books.blocks <==> StandsInSlab(x, w.books.bases, c.count, c.size)
    {
      BlocksStand(w.books.bases, c.count, c.size, x);
    }
    TotalIs(|w.books.bases|, c.count);
    if w.books.bases != [] {
      TotalIs(|w.books.bases| - 1, c.count);
    }
    CeilDivBetween(w.books.peak, c.count, |w.books.bases|);
  }

  /** The most blocks that are out at any moment of a run. */
  ghost function MostLive(c: Config, w: World, steps: seq<Step>): nat
    requires Inv(c, w.pool, w.books) && Legal(c, w, steps)
    decreases |steps|
  {
    if steps == [] then |w.books.live|
    else
      NextKeepsInv(c, w, steps[0]);
      var later := MostLive(c, Next(c, w, steps[0]), steps[1..]);
      if later > |w.books.live| then later else |w.books.live|
  }

  lemma StepKeepsPeak(c: Config, w: World, step: Step)
    requires Inv(c, w.pool, w.books) && Enabled(c, w, step)
    ensures var v := Next(c, w, step).books;
            v.peak == if |v.live| > w.books.peak then |v.live| else w.books.peak
  {
    if step.Delocate? {
      assert |w.books.live - {step.block}| <= |w.books.live|;
    }
  }

  /** The peak in the slab count is the greatest demand of the run. */
  lemma {:induction false} PeakIsGreatestDemand(c: Config, w: World, steps: seq<Step>)
    requires Inv(c, w.pool, w.books) && Legal(c, w, steps)
    ensures var most := MostLive(c, w, steps);
            Exec(c, w, steps).books.peak == if most > w.books.peak then most else w.books.peak
    decreases |steps|
  {
    if steps != [] {
      NextKeepsInv(c, w, steps[0]);
      StepKeepsPeak(c, w, steps[0]);
      PeakIsGreatestDemand(c, Next(c, w, steps[0]), steps[1..]);
    }
  }

  /** The value of one byte of a block after a step, as far as writes to it go. */
  ghost function Written(step: Step, block: int, offset: nat, value: Byte): Byte {
    if step.Poke? && step.block == block && step.offset == offset then step.value else value
  }

  /** The last value that a run's own writes leave at one byte of a block. */
  ghost function Latest(steps: seq<Step>, block: int, offset: nat, value: Byte): Byte
    decreases |steps|
  {
    if steps == [] then value else Latest(steps[1..], block, offset, Written(steps[0], block, offset, value))
  }

  ghost predicate NeverReturned(steps: seq<Step>, block: nat) {
    forall i :: 0 <= i < |steps| ==> steps[i] != Delocate(block)
  }

  /** While a client holds a block, whatever else is allocated, returned or written,
      each of its bytes is what the client last wrote there. */
  lemma {:induction false} HeldBlockIsPrivate(c: Config, w: World, steps: seq<Step>, block: nat, offset: nat)
    requires Inv(c, w.pool, w.books) && Legal(c, w, steps)
    requires block in w.books.live && offset < c.size
    requires NeverReturned(steps, block)
    requires block + offset in w.pool.memory
    ensures var w' := Exec(c, w, steps);
            && block in w'.books.live
            && block + offset in w'.pool.memory
            && w'.pool.memory[block + offset] == Latest(steps, block, offset, w.pool.memory[block + offset])
    decreases |steps|
  {
    if steps != [] {
      NextKeepsInv(c, w, steps[0]);
      var v := Next(c, w, steps[0]);
      HeldBlockSurvives(c, w, steps[0], block, offset);
      assert forall i :: 0 <= i < |steps[1..]| ==> steps[1..][i] == steps[i + 1];
      HeldBlockIsPrivate(c, v, steps[1..], block, offset);
    }
  }

  /** One step: the step's own write is the only way a held block changes. */
  lemma HeldBlockSurvives(c: Config, w: World, step: Step, block: nat, offset: nat)
    requires Inv(c, w.pool, w.books) && Enabled(c, w, step) && step != Delocate(block)
    requires block in w.books.live && offset < c.size && block + offset in w.pool.memory
    ensures var v := Next(c, w, step);
            && block in v.books.live
            && block + offset in v.pool.memory
            && v.pool.memory[block + offset] == Written(step, block, offset, w.pool.memory[block + offset])
  {
    match step
    case Allocate(r) => AllocateKeepsInv(c, w.pool, w.books, r);
    case Delocate(other) => LiveBlocksApart(c, w.pool, w.books, block, other);
    case Poke(other, _, _) => LiveBlocksApart(c, w.pool, w.books, block, other);
  }

  lemma LiveBlocksApart(c: Config, p: Pool, g: Books, x: int, y: int)
    requires Inv(c, p, g) && x in g.live && y in g.live
    ensures x != y ==> Apart(x, y, c.size)
  {
    PartitionMeans(c, p, g);
  }

  // ---------------------------------------------------------------- the classes

  /** The process memory, shared by the pool and its clients. */
  class Heap {
    var bytes: Memory

    constructor ()
      ensures bytes == map[]
    {
      bytes := map[];
    }
  }

  class CMemoryPool {
    const maxPoolCount: nat
    const allocBlockSize: nat
    const pointerBytes: nat
    const heap: Heap
    var memoryHead: nat
    ghost var books: Books

    ghost function Cfg(): Config {
      Config(maxPoolCount, allocBlockSize, pointerBytes)
    }

    ghost function State(): Pool
      reads this, heap
    {
      Pool(memoryHead, heap.bytes)
    }

    ghost predicate Valid()
      reads this, heap
    {
      Inv(Cfg(), State(), books)
    }

    constructor (maxPoolCount: nat, allocBlockSize: nat, pointerBytes: nat, heap: Heap)
      requires Usable(Config(maxPoolCount, allocBlockSize, pointerBytes))
      ensures Valid() && books == NO_BOOKS && memoryHead == NULL
      ensures this.heap == heap && Cfg() == Config(maxPoolCount, allocBlockSize, pointerBytes)
    {
      this.maxPoolCount, this.allocBlockSize := maxPoolCount, allocBlockSize;
      this.pointerBytes, this.heap := pointerBytes, heap;
      memoryHead, books := NULL, NO_BOOKS;
      assert multiset(NO_BOOKS.free) + multiset(NO_BOOKS.live) == multiset(NO_BOOKS.blocks);
    }

    /** The linking loop: two moving pointers over a fresh slab. */
    method AllocateBlock(slab: Region)
      requires Usable(Cfg()) && IsFresh(Cfg(), heap.bytes, slab)
      modifies this`memoryHead, heap
      ensures State() == AllocateBlockStep(Cfg(), old(State()), slab)
    {
      heap.bytes := WriteBytes(heap.bytes, slab.base, slab.garbage);
      memoryHead := slab.base;
      ghost var linked := Link(heap.bytes, slab.base, maxPoolCount, allocBlockSize, pointerBytes);
      var current: nat, next: nat := memoryHead, memoryHead;
      var i := 0;
      ghost var left := maxPoolCount;
      while i < maxPoolCount - 1
        invariant 0 <= i <= maxPoolCount - 1 && left == maxPoolCount - i
        invariant memoryHead == slab.base && next == current
        invariant Link(heap.bytes, current, left, allocBlockSize, pointerBytes) == linked
      {
        next := next + allocBlockSize;
        LinkOne(heap.bytes, current, left, allocBlockSize, pointerBytes);
        heap.bytes := WritePointer(heap.bytes, current, next, pointerBytes);
        current := next;
        i := i + 1;
        left := left - 1;
      }
      assert left == 1;
      heap.bytes := WritePointer(heap.bytes, current, NULL, pointerBytes);
      assert heap.bytes == linked;
    }

    method Allocate(slab: Region) returns (block: nat)
      requires Valid() && (memoryHead == NULL ==> IsFresh(Cfg(), heap.bytes, slab))
      modifies this, heap
      ensures Valid()
      ensures books == BooksAfterAllocate(Cfg(), old(books), slab)
      ensures block != NULL && block !in old(books).live && books.live == old(books).live + {block}
      ensures Extends(old(heap.bytes), heap.bytes)
    {
      AllocateKeepsInv(Cfg(), State(), books, slab);
      if memoryHead == NULL {
        AllocateBlock(slab);
      }
      block := memoryHead;
      memoryHead := ReadPointer(heap.bytes, block, pointerBytes);
      books := BooksAfterAllocate(Cfg(), books, slab);
    }

    method Delocate(block: nat)
      requires Valid() && block in books.live
      modifies this, heap
      ensures Valid()
      ensures books == BooksAfterDelocate(old(books), block)
      ensures memoryHead == block
      ensures forall a :: a in old(heap.bytes) && !(block <= a < block + pointerBytes) ==>
                a in heap.bytes && heap.bytes[a] == old(heap.bytes)[a]
    {
      DelocateKeepsInv(Cfg(), State(), books, block);
      heap.bytes := WritePointer(heap.bytes, block, memoryHead, pointerBytes);
      memoryHead := block;
      books := BooksAfterDelocate(books, block);
    }

    /** A client's write through a pointer it holds. */
    method Poke(block: nat, offset: nat, value: Byte)
      requires Valid() && block in books.live && offset < allocBlockSize
      modifies heap
      ensures Valid()
      ensures heap.bytes == old(heap.bytes)[block + offset := value]
    {
      PokeKeepsInv(Cfg(), State(), books, block, offset, value);
      heap.bytes := heap.bytes[block + offset := value];
    }
  }

  /** The operator new/delete pair over one lazily created pool. */
  class CMemoryManager {
    const poolMaxSize: nat
    const objectSize: nat
    const pointerBytes: nat
    const heap: Heap
    var memoryPool: CMemoryPool?

    ghost predicate Valid()
      reads this, memoryPool, heap
    {
      && Usable(Config(poolMaxSize, objectSize, pointerBytes))
      && (memoryPool != null ==>
            && memoryPool.heap == heap
            && memoryPool.Valid()
            && memoryPool.Cfg() == Config(poolMaxSize, objectSize, pointerBytes))
    }

    ghost function Live(): set<int>
      reads this, memoryPool
    {
      if memoryPool == null then {} else memoryPool.books.live
    }

    ghost predicate NeedsSlab()
      reads this, memoryPool
    {
      memoryPool == null || memoryPool.memoryHead == NULL
    }

    constructor (poolMaxSize: nat, objectSize: nat, pointerBytes: nat, heap: Heap)
      requires Usable(Config(poolMaxSize, objectSize, pointerBytes))
      ensures Valid() && Live() == {} && this.heap == heap
      ensures this.poolMaxSize == poolMaxSize && this.objectSize == objectSize && this.pointerBytes == pointerBytes
    {
      this.poolMaxSize, this.objectSize, this.pointerBytes := poolMaxSize, objectSize, pointerBytes;
      this.heap, memoryPool := heap, null;
    }

    method New(slab: Region) returns (block: nat)
      requires Valid() && (NeedsSlab() ==> IsFresh(Config(poolMaxSize, objectSize, pointerBytes), heap.bytes, slab))
      modifies this, heap, memoryPool
      ensures Valid()
      ensures block != NULL && block !in old(Live()) && Live() == old(Live()) + {block}
      ensures Extends(old(heap.bytes), heap.bytes)
    {
      if memoryPool == null {
        memoryPool := new CMemoryPool(poolMaxSize, objectSize, pointerBytes, heap);
      }
      block := memoryPool.Allocate(slab);
    }

    /** Deleting null does nothing. */
    method Delete(block: nat)
      requires Valid() && (block != NULL ==> block in Live())
      modifies heap, memoryPool
      ensures Valid()
      ensures block == NULL ==> heap.bytes == old(heap.bytes) && Live() == old(Live())
      ensures block != NULL ==> Live() == old(Live()) - {block}
      ensures block != NULL ==>
                forall a :: a in old(heap.bytes) && !(block <= a < block + pointerBytes) ==>
                  a in heap.bytes && heap.bytes[a] == old(heap.bytes)[a]
    {
      if block == NULL {
        return;
      }
      if memoryPool != null {
        memoryPool.Delocate(block);
      }
    }
  }
}
