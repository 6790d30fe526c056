/** Where the objects of a slab cache lie in physical memory, and how the blocks of different
    caches stay apart. */
module SlabBlocks {
  import opened Arithmetic
  import opened Sets
  import opened Windows
  import opened BuddyState
  import SlabState

  const PAGE: nat := 0x1000
  const SLAB_SIZE: nat := SlabState.OBJ_COUNT * 4 + 32  // slabSize: the object descriptors and `struct Slab`

  type Obj = SlabState.Obj

  // ----- Layout of a slab -----

  /** `slabPage`: pages a slab with objects of this size takes. */
  function SlabPages(objSize: nat): nat {
    (SLAB_SIZE + objSize * SlabState.OBJ_COUNT + 0xfff) / PAGE
  }

  /** `perSlabOrder`: the first order that is large enough, MAX_ORDER if none is. */
  ghost predicate OrderFor(objSize: nat, order: nat) {
    && order <= MAX_ORDER
    && (order < MAX_ORDER ==> Pow2(order) >= SlabPages(objSize))
    && (forall k | 0 <= k < order :: Pow2(k) < SlabPages(objSize))
  }

  /** The loop of `initSlabCache`: the smallest block that holds `struct Slab`, 256 descriptors and 256 objects,
      11 if not even the largest one does. */
  method FindOrder(objSize: nat) returns (order: nat)
    ensures OrderFor(objSize, order) && order <= 11
    ensures order < 11 ==> 32 + 4 * 256 + 256 * objSize <= Pow2(order) * 4096
    ensures forall k | 0 <= k < order :: Pow2(k) * 4096 < 32 + 4 * 256 + 256 * objSize
  {
    order := 0;
    while order < MAX_ORDER
      invariant 0 <= order <= MAX_ORDER
      invariant forall k | 0 <= k < order :: Pow2(k) < SlabPages(objSize)
    {
      if Pow2(order) >= SlabPages(objSize) {
        break;
      }
      order := order + 1;
    }
  }

  /** Physical address of an object: `slab->memory + index * objSize`. */
  function Address(o: Obj, objSize: nat): nat {
    o.slab * PAGE + SLAB_SIZE + o.index * objSize
  }

  function Addresses(objs: seq<Obj>, objSize: nat): (s: seq<nat>)
    ensures |s| == |objs|
  {
    seq(|objs|, i requires 0 <= i < |objs| => Address(objs[i], objSize))
  }

  lemma AddressesOfPrefix(objs: seq<Obj>, objSize: nat, n: nat)
    requires n <= |objs|
    ensures Addresses(objs, objSize)[..n] == Addresses(objs[..n], objSize)
  {
  }

  /** `getPhysicsPage`: the page an address lies in. */
  function PageOf(address: nat): nat {
    address / PAGE
  }

  /** `(obj - slab->memory) / objSize`. */
  function IndexIn(address: nat, slab: nat, objSize: nat): nat
    requires objSize > 0 && slab * PAGE + SLAB_SIZE <= address
  {
    (address - (slab * PAGE + SLAB_SIZE)) / objSize
  }

  /** An object lies behind `struct Slab` and the 256 descriptors and before the end of the slab's block. */
  lemma ObjectInsideBlock(o: Obj, objSize: nat, order: nat)
    requires OrderFor(objSize, order) && order < MAX_ORDER && o.index < SlabState.OBJ_COUNT
    ensures o.slab * 4096 + 32 + 4 * 256 <= Address(o, objSize)
    ensures Address(o, objSize) + objSize <= (o.slab + Pow2(order)) * 4096
  {
    MulLe(0, o.index, objSize);
    MulLe(o.index + 1, SlabState.OBJ_COUNT, objSize);
    assert (o.index + 1) * objSize == o.index * objSize + objSize;
    assert SLAB_SIZE + objSize * SlabState.OBJ_COUNT <= SlabPages(objSize) * PAGE;
  }

  /** The object at `address` was handed out. Whatever else happened, no other object changed hands. */
  ghost predicate ServedAt(c: SlabState.Cache, r: SlabState.Cache, objSize: nat, address: nat) {
    exists o: Obj ::
      && address == Address(o, objSize) && o !in c.client && r.client == c.client + {o}
      && SlabState.InUse(r, o) && c.slabs.Keys <= r.slabs.Keys
  }

  /** The page of an object lies in the slab's block, and its index can be read off its address. */
  lemma DecodeAddress(o: Obj, objSize: nat, order: nat)
    requires OrderFor(objSize, order) && order < MAX_ORDER && o.index < SlabState.OBJ_COUNT && objSize > 0
    requires Head(o.slab, order)
    ensures SameWindow(o.slab, PageOf(Address(o, objSize)), order)
    ensures o.slab * PAGE + SLAB_SIZE <= Address(o, objSize)
    ensures IndexIn(Address(o, objSize), o.slab, objSize) == o.index
  {
    ObjectInsideBlock(o, objSize, order);
    var a := Address(o, objSize);
    assert o.slab <= a / PAGE < o.slab + Pow2(order);
    SameWindowIffInterval(o.slab, a / PAGE, order);
    DivMul(o.index, objSize);
  }

  /** Objects of one slab do not overlap. */
  lemma SameSlabDisjoint(o: Obj, q: Obj, objSize: nat)
    requires o.slab == q.slab && o.index < q.index
    ensures Address(o, objSize) + objSize <= Address(q, objSize)
  {
    MulLe(o.index + 1, q.index, objSize);
    assert (o.index + 1) * objSize == o.index * objSize + objSize;
  }

  // ----- Ownership of blocks -----

  /** The blocks at `slabs` are in use, once, and every page of them leads to its slab and to the cache. */
  ghost predicate BlocksOk(s: State, slabs: set<nat>, order: nat, id: int) {
    forall b {:trigger BlockOwned(s, b, order, id)} | b in slabs :: BlockOwned(s, b, order, id)
  }

  ghost predicate BlockOwned(s: State, b: nat, order: nat, id: int) {
    && BlockAt(s.tile, b, Tile(order, Used)) && |s.pages| == |s.tile| && b + 1 < |s.tile|
    && s.pages[b].count == 1 && !s.pages[b].reserved && !s.pages[b].pageCache
    && forall i {:trigger SameWindow(b, i, order)} | 0 <= i < |s.tile| && SameWindow(b, i, order) ::
         s.pages[i].slab && s.pages[i].linkPrev == b && s.pages[i].linkNext == id
  }

  ghost predicate InBlocks(i: nat, slabs: set<nat>, order: nat) {
    exists b {:trigger SameWindow(b, i, order)} | b in slabs :: SameWindow(b, i, order)
  }

  /** Pages in use outside the blocks at `mine` keep their block and their descriptor. */
  ghost predicate ForeignKept(s0: State, s: State, mine: set<nat>, order: nat) {
    && |s.tile| == |s0.tile| == |s.pages| == |s0.pages|
    && forall i | 0 <= i < |s0.tile| && s0.tile[i].status == Used && !InBlocks(i, mine, order) ::
         s.tile[i] == s0.tile[i] && s.pages[i] == s0.pages[i]
  }

  /** A block that keeps all its pages stays owned. */
  lemma BlockSurvives(s0: State, s: State, b: nat, order: nat, id: int)
    requires BlockOwned(s0, b, order, id) && Tiling(s0.tile)
    requires |s.tile| == |s0.tile| == |s.pages| == |s0.pages|
    requires forall i | 0 <= i < |s0.tile| && SameWindow(b, i, order) :: s.tile[i] == s0.tile[i] && s.pages[i] == s0.pages[i]
    ensures BlockOwned(s, b, order, id)
  {
    assert SameWindow(b, b, order);
  }

  lemma LinkOfPage(s: State, slabs: set<nat>, order: nat, id: int, i: nat)
    requires BlocksOk(s, slabs, order, id) && i < |s.tile| && InBlocks(i, slabs, order)
    ensures i < |s.pages| && s.pages[i].linkNext == id
  {
    var c :| c in slabs && SameWindow(c, i, order);
    assert BlockOwned(s, c, order, id);
  }

  /** The blocks of another cache survive what one cache does. */
  lemma ForeignBlocksSurvive(s0: State, s: State, mine: set<nat>, order: nat, id: int, theirs: set<nat>, theirOrder: nat, theirId: int)
    requires Tiling(s0.tile) && BlocksOk(s0, mine, order, id) && BlocksOk(s0, theirs, theirOrder, theirId) && id != theirId
    requires ForeignKept(s0, s, mine, order)
    ensures BlocksOk(s, theirs, theirOrder, theirId)
  {
    forall b | b in theirs
      ensures BlockOwned(s, b, theirOrder, theirId)
    {
      assert BlockOwned(s0, b, theirOrder, theirId);
      SameBlock(s0.tile, b);
      forall i | 0 <= i < |s0.tile| && SameWindow(b, i, theirOrder)
        ensures !InBlocks(i, mine, order)
      {
        if InBlocks(i, mine, order) {
          LinkOfPage(s0, mine, order, id, i);
        }
      }
      BlockSurvives(s0, s, b, theirOrder, theirId);
    }
  }

  /** Blocks with different heads share no page. */
  lemma BlocksDisjoint(tile: seq<Tile>, b: nat, c: nat, i: nat)
    requires Tiling(tile) && i < |tile| && b < |tile| && c < |tile|
    requires BlockAt(tile, b, tile[b]) && BlockAt(tile, c, tile[c])
    requires b != c && SameWindow(c, i, tile[c].order)
    ensures !SameWindow(b, i, tile[b].order)
  {
    SameBlock(tile, b);
    SameBlock(tile, c);
    SameWindowIffInterval(b, i, tile[b].order);
    SameWindowIffInterval(c, i, tile[c].order);
  }

  // ----- Marking the pages of a slab (src/memory/slab.c:33-34, 42-43 and 59-66) -----

  /** Only the slab flag and the links may differ. */
  ghost predicate SameButMarks(p: seq<Page>, q: seq<Page>) {
    && |p| == |q|
    && forall i | 0 <= i < |p| :: q[i] == p[i].(slab := q[i].slab, linkPrev := q[i].linkPrev, linkNext := q[i].linkNext)
  }

  lemma MarksKeepValid(s: State, pages: seq<Page>)
    requires Valid(s) && SameButMarks(s.pages, pages)
    ensures Valid(s.(pages := pages))
  {
    forall i | 0 <= i < |s.tile|
      ensures PageOk(pages[i], i, s.tile[i])
    {
      assert PageOk(s.pages[i], i, s.tile[i]);
    }
  }

  /** The slab flag set on `n` pages from `b`, and their links set to slab and cache. */
  function Marked(pages: seq<Page>, b: nat, n: nat, id: int): (r: seq<Page>)
    ensures |r| == |pages|
  {
    seq(|pages|, i requires 0 <= i < |pages| =>
      if b <= i < b + n then pages[i].(slab := true, linkPrev := b, linkNext := id) else pages[i])
  }

  lemma MarkedKeepsValid(s: State, b: nat, n: nat, id: int)
    requires Valid(s)
    ensures Valid(s.(pages := Marked(s.pages, b, n, id)))
  {
    MarksKeepValid(s, Marked(s.pages, b, n, id));
  }

  lemma UnmarkedKeepsValid(s: State, b: nat, n: nat)
    requires Valid(s)
    ensures Valid(s.(pages := Unmarked(s.pages, b, n)))
  {
    MarksKeepValid(s, Unmarked(s.pages, b, n));
  }

  /** The slab flag cleared on `n` pages from `b`. */
  function Unmarked(pages: seq<Page>, b: nat, n: nat): (r: seq<Page>)
    ensures |r| == |pages|
  {
    seq(|pages|, i requires 0 <= i < |pages| => if b <= i < b + n then pages[i].(slab := false) else pages[i])
  }

  // ----- A cache gains or loses a block -----

  /** The page allocator gave out `b`: the pages it touched were free. */
  lemma AllocatedWasFree(s0: State, s1: State, b: nat, found: nat, order: nat, i: nat)
    requires Allocated(s0, s1, b, found, order) && i < |s0.tile| && s0.tile[i].status == Used
    ensures !SameWindow(b, i, found) && s1.tile[i] == s0.tile[i] && s1.pages[i] == s0.pages[i]
  {
  }

  lemma BlockGained(s0: State, s1: State, s2: State, slabs: set<nat>, order: nat, id: int, b: nat, found: nat)
    requires Valid(s0) && Valid(s1) && Allocated(s0, s1, b, found, order) && BlocksOk(s0, slabs, order, id)
    requires s2 == s1.(pages := Marked(s1.pages, b, Pow2(order), id))
    ensures b !in slabs && BlocksOk(s2, slabs, order, id) && BlockOwned(s2, b, order, id)
    ensures ForeignKept(s0, s2, slabs, order) && BlockReturned(s2, s0, b, order)
    ensures Valid(s2)
  {
    MarkedKeepsValid(s1, b, Pow2(order), id);
    forall c | c in slabs
      ensures c != b
    {
      assert BlockOwned(s0, c, order, id);
      AllocatedWasFree(s0, s1, b, found, order, c);
    }
    NewBlockOwned(s0, s1, s2, order, id, b, found);
    forall i | 0 <= i < |s0.tile| && s0.tile[i].status == Used
      ensures s2.tile[i] == s0.tile[i] && s2.pages[i] == s0.pages[i]
    {
      UsedUntouched(s0, s1, s2, order, id, b, found, i);
    }
    UsedBlocksKept(s0, s2, slabs, order, id);
  }

  lemma NewSlabBlocks(s: State, c: SlabState.Cache, b: nat, order: nat, id: int)
    requires BlocksOk(s, c.slabs.Keys, order, id) && BlockOwned(s, b, order, id)
    ensures BlocksOk(s, SlabState.NewSlab(c, b).slabs.Keys, order, id)
  {
  }

  lemma UsedBlocksKept(s0: State, s: State, slabs: set<nat>, order: nat, id: int)
    requires Tiling(s0.tile) && BlocksOk(s0, slabs, order, id)
    requires |s.tile| == |s0.tile| == |s.pages| == |s0.pages|
    requires forall i | 0 <= i < |s0.tile| && s0.tile[i].status == Used :: s.tile[i] == s0.tile[i] && s.pages[i] == s0.pages[i]
    ensures BlocksOk(s, slabs, order, id)
  {
    forall c | c in slabs
      ensures BlockOwned(s, c, order, id)
    {
      assert BlockOwned(s0, c, order, id);
      SameBlock(s0.tile, c);
      BlockSurvives(s0, s, c, order, id);
    }
  }

  lemma UsedUntouched(s0: State, s1: State, s2: State, order: nat, id: int, b: nat, found: nat, i: nat)
    requires Allocated(s0, s1, b, found, order) && s2 == s1.(pages := Marked(s1.pages, b, Pow2(order), id))
    requires i < |s0.tile| && s0.tile[i].status == Used
    ensures s2.tile[i] == s0.tile[i] && s2.pages[i] == s0.pages[i]
  {
    AllocatedWasFree(s0, s1, b, found, order, i);
    SameWindowIffInterval(b, i, order);
    if SameWindow(b, i, order) {
      WindowsNest(b, i, order, found);
    }
  }

  lemma NewBlockOwned(s0: State, s1: State, s2: State, order: nat, id: int, b: nat, found: nat)
    requires Valid(s0) && Allocated(s0, s1, b, found, order)
    requires s2 == s1.(pages := Marked(s1.pages, b, Pow2(order), id))
    ensures BlockOwned(s2, b, order, id)
  {
    assert b in s0.lists[found] && FreeHead(s0.tile, b, found);
    assert b + 1 < |s0.tile|;
    assert PageOk(s0.pages[b], b, s0.tile[b]);
    forall i | 0 <= i < |s2.tile| && SameWindow(b, i, order)
      ensures s2.pages[i].slab && s2.pages[i].linkPrev == b && s2.pages[i].linkNext == id
    {
      SameWindowIffInterval(b, i, order);
    }
  }

  lemma OwnedInside(s: State, b: nat, order: nat, id: int)
    requires Tiling(s.tile) && BlockOwned(s, b, order, id)
    ensures order < MAX_ORDER && b + Pow2(order) <= |s.tile|
  {
    SameBlock(s.tile, b);
    assert Fits(|s.tile|, b, order);
  }

  /** The descriptor of the page an object's address lies in names the object's slab and cache, and
      the index can be computed from the address. */
  lemma AddressLeadsBack(s: State, c: SlabState.Cache, o: Obj, order: nat, id: int, objSize: nat)
    requires Tiling(s.tile) && BlocksOk(s, c.slabs.Keys, order, id) && SlabState.InUse(c, o)
    requires objSize > 0 && OrderFor(objSize, order)
    ensures var address := Address(o, objSize);
            && PageOf(address) < |s.pages|
            && s.pages[PageOf(address)].linkPrev == o.slab && s.pages[PageOf(address)].linkNext == id
            && o.slab * PAGE + SLAB_SIZE <= address && IndexIn(address, o.slab, objSize) == o.index
  {
    assert BlockOwned(s, o.slab, order, id);
    OwnedInside(s, o.slab, order, id);
    DecodeAddress(o, objSize, order);
    SameWindowIffInterval(o.slab, PageOf(Address(o, objSize)), order);
  }

  lemma BlockLost(s0: State, s1: State, s2: State, slabs: set<nat>, order: nat, id: int, b: nat)
    requires Valid(s0) && BlocksOk(s0, slabs, order, id) && b in slabs
    requires s1 == s0.(pages := Unmarked(s0.pages, b, Pow2(order)))
    requires Released(s1, s2, b, order)
    ensures BlocksOk(s2, slabs - {b}, order, id) && ForeignKept(s0, s2, slabs, order)
  {
    assert BlockOwned(s0, b, order, id);
    forall i | 0 <= i < |s0.tile| && s0.tile[i].status == Used && !SameWindow(b, i, order)
      ensures s2.tile[i] == s0.tile[i] && s2.pages[i] == s0.pages[i]
    {
      SameWindowIffInterval(b, i, order);
    }
    forall c | c in slabs && c != b
      ensures BlockOwned(s2, c, order, id)
    {
      assert BlockOwned(s0, c, order, id);
      SameBlock(s0.tile, c);
      forall i | 0 <= i < |s0.tile| && SameWindow(c, i, order)
        ensures !SameWindow(b, i, order)
      {
        BlocksDisjoint(s0.tile, b, c, i);
      }
      BlockSurvives(s0, s2, c, order, id);
    }
  }

  // ----- No page is lost -----

  ghost predicate PageFree(s: State, i: nat) {
    i < |s.tile| && s.tile[i].status == Free
  }

  /** Exactly the pages of the block at `b` were freed. */
  ghost predicate BlockReturned(s0: State, s: State, b: nat, order: nat) {
    && |s.tile| == |s0.tile| && s.freeCount == s0.freeCount + Pow2(order)
    && forall i: nat {:trigger PageFree(s, i)} {:trigger PageFree(s0, i)} | i < |s.tile| ::
         PageFree(s, i) <==> PageFree(s0, i) || SameWindow(b, i, order)
  }

  /** Every page that was free or in one of the blocks at `keys0` is free or in one at `keys` now, and no other page is. */
  ghost predicate Conserved(s0: State, keys0: set<nat>, s: State, keys: set<nat>, order: nat) {
    && |s.tile| == |s0.tile|
    && forall i: nat {:trigger PageFree(s, i)} {:trigger PageFree(s0, i)} | i < |s.tile| ::
         PageFree(s, i) || InBlocks(i, keys, order) <==> PageFree(s0, i) || InBlocks(i, keys0, order)
  }

  /** The pages of the blocks that are at `keys0` but not at `keys` became free, and no other page did. */
  ghost predicate PagesReturned(s0: State, keys0: set<nat>, s: State, keys: set<nat>, order: nat) {
    && |s.tile| == |s0.tile|
    && forall i: nat {:trigger PageFree(s, i)} {:trigger PageFree(s0, i)} | i < |s.tile| ::
         PageFree(s, i) <==> PageFree(s0, i) || (InBlocks(i, keys0, order) && !InBlocks(i, keys, order))
  }

  /** The pages of the blocks that are at `keys` but not at `keys0` are no longer free, and all other pages are as free as before. */
  ghost predicate PagesTaken(s0: State, keys0: set<nat>, s: State, keys: set<nat>, order: nat) {
    PagesReturned(s, keys, s0, keys0, order)
  }

  lemma OwnedNotFree(s: State, keys: set<nat>, order: nat, id: int, i: nat)
    requires Tiling(s.tile) && BlocksOk(s, keys, order, id) && InBlocks(i, keys, order)
    ensures !PageFree(s, i)
  {
    var b :| b in keys && SameWindow(b, i, order);
    assert BlockOwned(s, b, order, id);
    if i < |s.tile| {
      SameBlock(s.tile, b);
    }
  }

  lemma ReturnedIfConserved(s0: State, keys0: set<nat>, s: State, keys: set<nat>, order: nat, id: int)
    requires Tiling(s0.tile) && Tiling(s.tile) && BlocksOk(s0, keys0, order, id) && BlocksOk(s, keys, order, id)
    requires Conserved(s0, keys0, s, keys, order) && keys <= keys0
    ensures PagesReturned(s0, keys0, s, keys, order)
  {
    FewerBlocks(keys0, keys, order);
    forall i: nat | i < |s.tile|
      ensures PageFree(s, i) <==> PageFree(s0, i) || (InBlocks(i, keys0, order) && !InBlocks(i, keys, order))
    {
      if InBlocks(i, keys, order) {
        OwnedNotFree(s, keys, order, id, i);
      }
      if InBlocks(i, keys0, order) {
        OwnedNotFree(s0, keys0, order, id, i);
      }
    }
  }

  lemma ConservedTransitive(s0: State, keys0: set<nat>, s1: State, keys1: set<nat>, s2: State, keys2: set<nat>, order: nat)
    requires Conserved(s0, keys0, s1, keys1, order) && Conserved(s1, keys1, s2, keys2, order)
    ensures Conserved(s0, keys0, s2, keys2, order)
  {
  }

  lemma ReleaseReturns(s0: State, s1: State, s2: State, b: nat, order: nat)
    requires s1 == s0.(pages := s1.pages) && Released(s1, s2, b, order)
    ensures BlockReturned(s0, s2, b, order)
  {
  }

  lemma TakingConserves(s0: State, s: State, c: SlabState.Cache, order: nat, b: nat)
    requires BlockReturned(s, s0, b, order) && b !in c.slabs
    ensures Conserved(s0, c.slabs.Keys, s, SlabState.NewSlab(c, b).slabs.Keys, order)
  {
    var keys := SlabState.NewSlab(c, b).slabs.Keys;
    assert keys - {b} == c.slabs.Keys;
    ReturnConserves(s, s0, keys, order, b);
  }

  /** No page of the block is marked as a slab's. */
  ghost predicate BlockUnmarked(s: State, b: nat, order: nat) {
    |s.pages| == |s.tile| && forall i | 0 <= i < |s.pages| && SameWindow(b, i, order) :: !s.pages[i].slab
  }

  lemma ReleaseUnmarks(s0: State, s1: State, s2: State, b: nat, order: nat)
    requires Valid(s0) && BlockAt(s0.tile, b, Tile(order, Used))
    requires s1 == s0.(pages := Unmarked(s0.pages, b, Pow2(order))) && Released(s1, s2, b, order)
    ensures BlockUnmarked(s2, b, order)
  {
    forall i | 0 <= i < |s2.pages| && SameWindow(b, i, order)
      ensures !s2.pages[i].slab
    {
      SameWindowIffInterval(b, i, order);
    }
  }

  lemma InFewerBlocks(i: nat, keys: set<nat>, order: nat, b: nat)
    requires b in keys
    ensures InBlocks(i, keys, order) <==> InBlocks(i, keys - {b}, order) || SameWindow(b, i, order)
  {
    if InBlocks(i, keys, order) {
      var c :| c in keys && SameWindow(c, i, order);
      assert c != b ==> c in keys - {b};
    }
  }

  lemma ReturnConserves(s0: State, s: State, keys: set<nat>, order: nat, b: nat)
    requires BlockReturned(s0, s, b, order) && b in keys
    ensures Conserved(s0, keys, s, keys - {b}, order)
  {
    forall i: nat | i < |s.tile| {
      InFewerBlocks(i, keys, order, b);
    }
  }

  // ----- Other users of the page allocator -----

  /** A call of another user: it gets pages, frees a block that is no slab, or changes the reference count
      of a page that heads no slab. */
  ghost predicate OutsideCall(s0: State, s: State, slabs: set<nat>) {
    || GotPages(s0, s)
    || (exists page: nat, order: nat :: page !in slabs && FreedOne(s0, s, page, order))
    || (exists page: nat, count: int :: page !in slabs && Recounted(s0, s, page, count))
  }

  ghost predicate GotPages(s0: State, s: State) {
    exists page: nat, found: nat, order: nat :: Allocated(s0, s, page, found, order)
  }

  ghost predicate FreedOne(s0: State, s: State, page: nat, order: nat) {
    BlockAt(s0.tile, page, Tile(order, Used)) && Released(s0, s, page, order)
  }

  ghost predicate Recounted(s0: State, s: State, page: nat, count: int) {
    page < |s0.pages| && s == s0.(pages := s0.pages[page := s0.pages[page].(count := count)])
  }

  /** Whatever other users do, the slabs of a cache stay its own. */
  lemma OutsideCallKeepsBlocks(s0: State, s: State, slabs: set<nat>, order: nat, id: int)
    requires Valid(s0) && BlocksOk(s0, slabs, order, id) && OutsideCall(s0, s, slabs)
    ensures BlocksOk(s, slabs, order, id)
  {
    if GotPages(s0, s) {
      var page: nat, found: nat, k: nat :| Allocated(s0, s, page, found, k);
      forall i | 0 <= i < |s0.tile| && s0.tile[i].status == Used {
        AllocatedWasFree(s0, s, page, found, k, i);
      }
      UsedBlocksKept(s0, s, slabs, order, id);
    } else if exists page: nat, k: nat :: page !in slabs && FreedOne(s0, s, page, k) {
      var page: nat, k: nat :| page !in slabs && FreedOne(s0, s, page, k);
      forall c | c in slabs
        ensures BlockOwned(s, c, order, id)
      {
        OtherBlockFreed(s0, s, c, order, id, page, k);
      }
    } else {
      var page: nat, count: int :| page !in slabs && Recounted(s0, s, page, count);
      forall c | c in slabs
        ensures BlockOwned(s, c, order, id)
      {
        assert BlockOwned(s0, c, order, id);
      }
    }
  }

  lemma OtherBlockFreed(s0: State, s: State, c: nat, order: nat, id: int, page: nat, k: nat)
    requires Tiling(s0.tile) && BlockOwned(s0, c, order, id) && c != page && FreedOne(s0, s, page, k)
    ensures BlockOwned(s, c, order, id)
  {
    SameBlock(s0.tile, c);
    forall i | 0 <= i < |s0.tile| && SameWindow(c, i, order)
      ensures !SameWindow(page, i, k)
    {
      BlocksDisjoint(s0.tile, page, c, i);
    }
    BlockSurvives(s0, s, c, order, id);
  }

  /** What one call does to others adds up over several calls of the same cache. */
  lemma ForeignKeptTransitive(s0: State, s1: State, s2: State, mine: set<nat>, later: set<nat>, order: nat)
    requires ForeignKept(s0, s1, mine, order) && ForeignKept(s1, s2, later, order) && later <= mine
    ensures ForeignKept(s0, s2, mine, order)
  {
    FewerBlocks(mine, later, order);
  }

  lemma FewerBlocks(mine: set<nat>, later: set<nat>, order: nat)
    requires later <= mine
    ensures forall i | InBlocks(i, later, order) :: InBlocks(i, mine, order)
  {
    forall i | InBlocks(i, later, order)
      ensures InBlocks(i, mine, order)
    {
      var b :| b in later && SameWindow(b, i, order);
      assert b in mine;
    }
  }
}
