/** The size classes of the kernel heap, src/memory/kmalloc.c, on top of the slab allocator. */
module KMalloc {
  import opened Arithmetic
  import opened Sets
  import opened Windows
  import B = BuddyState
  import Buddy
  import BuddyTheorems
  import opened SlabState
  import opened SlabBlocks
  import SlabAllocator

  const CLASSES: nat := 16

  /** `mallocSizes[i].size`: 32 bytes to 1 MB. */
  function ClassSize(i: nat): (s: nat)
    ensures s >= 32
  {
    32 * Pow2(i)
  }

  /** `i` is the first class that is large enough. */
  ghost predicate ClassFor(size: nat, i: nat) {
    i < CLASSES && size <= ClassSize(i) && forall j | 0 <= j < i :: ClassSize(j) < size
  }

  /** Bytes `a` up to `a + m` and bytes `b` up to `b + n` do not overlap. */
  predicate Apart(a: nat, m: nat, b: nat, n: nat) {
    a + m <= b || b + n <= a
  }

  // ----- Disjointness -----

  lemma HeadsApart(tile: seq<B.Tile>, b: nat, c: nat)
    requires B.Tiling(tile) && b < |tile| && c < |tile| && b < c
    requires B.BlockAt(tile, b, tile[b]) && B.BlockAt(tile, c, tile[c])
    ensures b + Pow2(tile[b].order) <= c
  {
    SameWindowIffInterval(b, c, tile[b].order);
    if c < b + Pow2(tile[b].order) {
      assert SameWindow(c, c, tile[c].order);
      BlocksDisjoint(tile, b, c, c);
    }
  }

  /** The blocks of two slabs, of one cache or two, do not overlap. */
  lemma BlocksApart(s: B.State, slabs: set<nat>, order: nat, id: int, slabs': set<nat>, order': nat, id': int, b: nat, c: nat)
    requires B.Tiling(s.tile) && BlocksOk(s, slabs, order, id) && BlocksOk(s, slabs', order', id')
    requires b in slabs && c in slabs' && (b, id) != (c, id')
    ensures Apart(b * PAGE, Pow2(order) * PAGE, c * PAGE, Pow2(order') * PAGE)
  {
    assert BlockOwned(s, b, order, id) && BlockOwned(s, c, order', id');
    assert SameWindow(b, b, order) && SameWindow(c, c, order');
    if b < c {
      HeadsApart(s.tile, b, c);
    } else if c < b {
      HeadsApart(s.tile, c, b);
    }
  }

  /** Objects in use never overlap, whether they belong to one slab, one cache or two. */
  lemma ObjectsApart(s: B.State, c: Cache, size: nat, order: nat, id: int, c': Cache, size': nat, order': nat, id': int, o: Obj, p: Obj)
    requires B.Tiling(s.tile) && BlocksOk(s, c.slabs.Keys, order, id) && BlocksOk(s, c'.slabs.Keys, order', id')
    requires OrderFor(size, order) && OrderFor(size', order')
    requires InUse(c, o) && InUse(c', p) && (o, id) != (p, id')
    requires id == id' ==> size == size'
    ensures Apart(Address(o, size), size, Address(p, size'), size')
  {
    OwnedInside(s, o.slab, order, id);
    OwnedInside(s, p.slab, order', id');
    if o.slab == p.slab && id == id' {
      if o.index < p.index {
        SameSlabDisjoint(o, p, size);
      } else {
        SameSlabDisjoint(p, o, size);
      }
    } else {
      ObjectInsideBlock(o, size, order);
      ObjectInsideBlock(p, size', order');
      BlocksApart(s, c.slabs.Keys, order, id, c'.slabs.Keys, order', id', o.slab, p.slab);
    }
  }

  /** The first `n` bytes of a slab and an object in use never overlap, if `n` is not beyond the descriptors. */
  lemma FrontApart(s: B.State, c: Cache, size: nat, order: nat, id: int, slabs: set<nat>, order': nat, id': int, o: Obj, b: nat, n: nat)
    requires B.Tiling(s.tile) && BlocksOk(s, c.slabs.Keys, order, id) && BlocksOk(s, slabs, order', id')
    requires OrderFor(size, order) && InUse(c, o) && b in slabs && n <= 32 + 4 * 256
    ensures Apart(Address(o, size), size, b * 4096, n)
  {
    OwnedInside(s, o.slab, order, id);
    ObjectInsideBlock(o, size, order);
    MulLe(1, Pow2(order'), PAGE);
    if (o.slab, id) != (b, id') {
      BlocksApart(s, c.slabs.Keys, order, id, slabs, order', id', o.slab, b);
    }
  }

  /** No object in use touches the 32 bytes of `struct Slab` at the start of any slab, nor any of the
      descriptors behind it, the 4 bytes each that hold the free chain. */
  lemma HeadersApart(s: B.State, c: Cache, size: nat, order: nat, id: int, c': Cache, order': nat, id': int, o: Obj, b: nat)
    requires B.Tiling(s.tile) && BlocksOk(s, c.slabs.Keys, order, id) && BlocksOk(s, c'.slabs.Keys, order', id')
    requires OrderFor(size, order) && InUse(c, o) && SlabsOk(c') && b in c'.slabs
    ensures Apart(Address(o, size), size, b * 4096, 32)
    ensures forall i | 0 <= i < |c'.slabs[b].desc| :: Apart(Address(o, size), size, b * 4096 + 32 + 4 * i, 4)
  {
    assert SlabOk(c'.slabs[b], c'.chain[b]);
    FrontApart(s, c, size, order, id, c'.slabs.Keys, order', id', o, b, 32);
    FrontApart(s, c, size, order, id, c'.slabs.Keys, order', id', o, b, 32 + 4 * 256);
  }

  // ----- The classes that can never be served -----

  /** A slab of objects larger than 8192 bytes would need more than the largest block. */
  lemma LargeClassesNeedTooMuch(i: nat, order: nat)
    requires i < CLASSES && OrderFor(ClassSize(i), order)
    ensures order == B.MAX_ORDER <==> i > 8
  {
    if i > 8 {
      Pow2Monotone(9, i);
      assert ClassSize(i) >= 16384;
      assert SlabPages(ClassSize(i)) >= 1025;
      if order < B.MAX_ORDER {
        Pow2Monotone(order, 10);
      }
    } else {
      Pow2Monotone(i, 8);
      assert ClassSize(i) <= 8192;
      assert SlabPages(ClassSize(i)) <= 1024 == Pow2(10);
    }
  }

  /** A cache whose slabs would not fit any block never has a slab, so never an object. */
  lemma NoSlabsTooLarge(s: B.State, c: Cache, order: nat, id: int)
    requires B.Tiling(s.tile) && BlocksOk(s, c.slabs.Keys, order, id) && Inv(c, {}) && order >= B.MAX_ORDER
    ensures c.local == [] && c.client == {} && c.freeObjCount == 0
  {
    forall b | b in c.slabs
      ensures false
    {
      OwnedInside(s, b, order, id);
    }
    assert forall o :: !InUse(c, o);
    if c.local != [] {
      FirstIsMember(c.local);
    }
    assert FreeObjs(c) == {};
  }

  // ----- The heap -----

  /** What a cache may write to. */
  ghost function OwnOf(cache: SlabAllocator.SlabCache): set<object> {
    {cache, cache.localCache, cache.localCache.data, cache.buddy, cache.buddy.memoryMap}
  }

  /** Cache `i` and its own objects lie in `objects`; `owner` gives them to it alone. */
  ghost predicate Placed(c: SlabAllocator.SlabCache, i: nat, buddy: Buddy.BuddySystem, objects: set<object>, owner: map<object, nat>) {
    && c.buddy == buddy && c.id == i && c.objSize == ClassSize(i) && c.Shape()
    && Owned(c, i, objects, owner) && Owned(c.localCache, i, objects, owner) && Owned(c.localCache.data, i, objects, owner)
  }

  ghost predicate Owned(o: object, i: nat, objects: set<object>, owner: map<object, nat>) {
    o in objects && o in owner && owner[o] == i
  }

  /** The caches are separate objects on one page allocator, told apart by their ids; `objects` are all of them. */
  ghost predicate WiredTo(cs: seq<SlabAllocator.SlabCache>, buddy: Buddy.BuddySystem, objects: set<object>, owner: map<object, nat>) {
    && buddy in objects && buddy.memoryMap in objects && buddy !in owner && buddy.memoryMap !in owner
    && forall i {:trigger cs[i]} | 0 <= i < |cs| :: Placed(cs[i], i, buddy, objects, owner)
  }

  lemma WiredGrows(cs: seq<SlabAllocator.SlabCache>, buddy: Buddy.BuddySystem, objects: set<object>, owner: map<object, nat>,
                   c: SlabAllocator.SlabCache)
      returns (objects': set<object>, owner': map<object, nat>)
    requires WiredTo(cs, buddy, objects, owner) && owner.Keys <= objects
    requires c.buddy == buddy && c.id == |cs| && c.objSize == ClassSize(|cs|) && c.Shape()
    requires c !in objects && c.localCache !in objects && c.localCache.data !in objects
    ensures objects' == objects + {c, c.localCache, c.localCache.data} && owner'.Keys <= objects'
    ensures WiredTo(cs + [c], buddy, objects', owner')
  {
    objects' := objects + {c, c.localCache, c.localCache.data};
    owner' := owner[c := |cs|][c.localCache := |cs|][c.localCache.data := |cs|];
    forall i | 0 <= i < |cs|
      ensures Placed(cs[i], i, buddy, objects', owner')
    {
      OwnedStill(cs[i], i, objects, owner, objects', owner');
      OwnedStill(cs[i].localCache, i, objects, owner, objects', owner');
      OwnedStill(cs[i].localCache.data, i, objects, owner, objects', owner');
    }
  }

  lemma OwnedStill(o: object, i: nat, objects: set<object>, owner: map<object, nat>, objects': set<object>, owner': map<object, nat>)
    requires Owned(o, i, objects, owner) && objects <= objects'
    requires forall x | x in objects && x in owner :: x in owner' && owner'[x] == owner[x]
    ensures Owned(o, i, objects', owner')
  {
  }

  class Heap {
    const buddy: Buddy.BuddySystem
    const caches: seq<SlabAllocator.SlabCache>  // the caches of `mallocSizes`
    ghost const repr: set<object>
    ghost const owner: map<object, nat>

    ghost predicate Wired() {
      |caches| == CLASSES == 16 && WiredTo(caches, buddy, repr, owner)
    }

    ghost predicate Ok()
      reads repr
    {
      Wired() && forall i | 0 <= i < CLASSES :: caches[i].Ok()
    }

    /** `initKMalloc`. */
    constructor (buddy: Buddy.BuddySystem)
      requires buddy.Ok()
      ensures Ok() && this.buddy == buddy && fresh(repr - {buddy, buddy.memoryMap})
      ensures |caches| == 16 && forall i | 0 <= i < 16 :: caches[i].client == {} && caches[i].objSize == 32 * Pow2(i)
    {
      this.buddy := buddy;
      var cs, objects, owners := NewCaches(buddy);
      caches, repr, owner := cs, objects, owners;
    }

    /** The loop of `initKMalloc`. */
    static method NewCaches(buddy: Buddy.BuddySystem)
        returns (cs: seq<SlabAllocator.SlabCache>, ghost objects: set<object>, ghost owner: map<object, nat>)
      requires buddy.Ok()
      ensures |cs| == CLASSES && Made(cs, buddy, objects, owner) && fresh(objects - {buddy, buddy.memoryMap})
    {
      cs, objects, owner := [], {buddy, buddy.memoryMap}, map[];
      for i := 0 to CLASSES
        invariant |cs| == i && Made(cs, buddy, objects, owner) && fresh(objects - {buddy, buddy.memoryMap})
      {
        cs, objects, owner := NextCache(cs, buddy, objects, owner);
      }
    }

    /** The caches made so far. */
    static ghost predicate Made(cs: seq<SlabAllocator.SlabCache>, buddy: Buddy.BuddySystem, objects: set<object>, owner: map<object, nat>)
      reads objects
    {
      && WiredTo(cs, buddy, objects, owner) && owner.Keys <= objects && buddy.Ok()
      && forall j | 0 <= j < |cs| :: cs[j].Ok() && cs[j].client == {}
    }

    static method NextCache(cs: seq<SlabAllocator.SlabCache>, buddy: Buddy.BuddySystem, ghost objects: set<object>, ghost owner: map<object, nat>)
        returns (cs': seq<SlabAllocator.SlabCache>, ghost objects': set<object>, ghost owner': map<object, nat>)
      requires Made(cs, buddy, objects, owner)
      ensures Made(cs', buddy, objects', owner') && |cs'| == |cs| + 1
      ensures objects <= objects' && fresh(objects' - objects)
    {
      var c := new SlabAllocator.SlabCache(buddy, |cs|, ClassSize(|cs|));
      assert Made(cs, buddy, objects, owner);
      objects', owner' := WiredGrows(cs, buddy, objects, owner, c);
      cs' := cs + [c];
    }

    lemma OwnApart(i: nat, j: nat)
      requires Wired() && i < CLASSES && j < CLASSES && i != j
      ensures caches[j] in repr - OwnOf(caches[i]) && caches[j].localCache in repr - OwnOf(caches[i])
      ensures caches[j].localCache.data in repr - OwnOf(caches[i])
    {
    }

    /** A cache that was not touched keeps its pages when cache `i` was called in page state `s0`. */
    lemma OtherKept(s0: B.State, keys: set<nat>, i: nat, j: nat)
      requires Wired() && i < CLASSES && j < CLASSES && i != j && caches[j].CacheOk() && buddy.Ok()
      requires B.Tiling(s0.tile) && BlocksOk(s0, keys, caches[i].perSlabOrder, i)
      requires BlocksOk(s0, caches[j].slabs.Keys, caches[j].perSlabOrder, j)
      requires ForeignKept(s0, buddy.Now(), keys, caches[i].perSlabOrder)
      ensures caches[j].Ok()
    {
      ForeignBlocksSurvive(s0, buddy.Now(), keys, caches[i].perSlabOrder, i, caches[j].slabs.Keys, caches[j].perSlabOrder, j);
    }

    ghost predicate Exhausted(i: nat)
      requires i < |caches|
      reads caches[i], buddy, buddy.memoryMap
    {
      SlabAllocator.Exhausted(caches[i].Now(), buddy.Now(), caches[i].perSlabOrder)
    }

    lemma LargeClassesEmpty(i: nat)
      requires Wired() && i < CLASSES && caches[i].Ok()
      ensures i > 8 ==> Exhausted(i)
    {
      LargeClassesNeedTooMuch(i, caches[i].perSlabOrder);
      if i > 8 {
        NoSlabsTooLarge(buddy.Now(), caches[i].Now(), caches[i].perSlabOrder, i);
      }
    }

    /** All caches are in order as far as page state `s0` goes. */
    ghost predicate StandsOn(s0: B.State)
      requires Wired()
      reads repr
    {
      forall i | 0 <= i < CLASSES :: caches[i].CacheOk() && BlocksOk(s0, caches[i].slabs.Keys, caches[i].perSlabOrder, i)
    }

    lemma PagesValid()
      requires Ok()
      ensures buddy.Ok() && StandsOn(buddy.Now())
    {
      assert caches[0].Ok();
    }

    /** Cache `i` was called in page state `s0`, when it had the slabs `keys`; the other caches were not touched. */
    lemma OneCacheCalled(s0: B.State, keys: set<nat>, i: nat)
      requires Wired() && i < CLASSES && caches[i].Ok()
      requires B.Tiling(s0.tile) && BlocksOk(s0, keys, caches[i].perSlabOrder, i)
      requires ForeignKept(s0, buddy.Now(), keys, caches[i].perSlabOrder)
      requires forall j | 0 <= j < CLASSES && j != i ::
                 caches[j].CacheOk() && BlocksOk(s0, caches[j].slabs.Keys, caches[j].perSlabOrder, j)
      ensures Ok()
    {
      forall j | 0 <= j < CLASSES && j != i
        ensures caches[j].Ok()
      {
        OtherKept(s0, keys, i, j);
      }
    }

    /** `allocByCache` on one cache, which touches nothing else. */
    static method AllocFrom(cache: SlabAllocator.SlabCache, ghost others: set<object>) returns (obj: Buddy.Option<nat>)
      requires cache.Ok() && others !! OwnOf(cache)
      modifies OwnOf(cache)
      ensures cache.Ok()
      ensures ForeignKept(old(cache.buddy.Now()), cache.buddy.Now(), old(cache.slabs.Keys), cache.perSlabOrder)
      ensures PagesTaken(old(cache.buddy.Now()), old(cache.slabs.Keys), cache.buddy.Now(), cache.slabs.Keys, cache.perSlabOrder)
      ensures SlabAllocator.Outcome(old(cache.Now()), old(cache.buddy.Now()), cache.Now(), cache.buddy.Now(), cache.perSlabOrder, cache.objSize, obj)
      ensures forall o | o in others :: unchanged(o)
    {
      obj := cache.AllocByCache();
    }

    /** The same, as it concerns all caches. */
    method AllocClass(i: nat) returns (obj: Buddy.Option<nat>)
      requires Ok() && i < CLASSES
      modifies repr
      ensures Ok()
      ensures obj.None? <==> old(Exhausted(i))
      ensures obj.None? ==> buddy.Now() == old(buddy.Now()) && forall j | 0 <= j < CLASSES :: caches[j].Now() == old(caches[j].Now())
      ensures obj.Some? ==>
                && ServedAt(old(caches[i].Now()), caches[i].Now(), ClassSize(i), obj.value)
                && PagesTaken(old(buddy.Now()), old(caches[i].slabs.Keys), buddy.Now(), caches[i].slabs.Keys, caches[i].perSlabOrder)
                && forall j | 0 <= j < CLASSES && j != i :: caches[j].Now() == old(caches[j].Now())
    {
      PagesValid();
      ghost var s0, keys := buddy.Now(), caches[i].slabs.Keys;
      obj := AllocFrom(caches[i], repr - OwnOf(caches[i]));
      forall j | 0 <= j < CLASSES && j != i
        ensures caches[j].CacheOk() && caches[j].Now() == old(caches[j].Now())
        ensures BlocksOk(s0, caches[j].slabs.Keys, caches[j].perSlabOrder, j)
      {
        OwnApart(i, j);
        assert unchanged(caches[j]) && unchanged(caches[j].localCache) && unchanged(caches[j].localCache.data);
        assert old(caches[j].Ok());
      }
      OneCacheCalled(s0, keys, i);
    }

    /** `kmalloc`: the first class that is large enough serves the request; sizes above 8192 are never served. */
    method Kmalloc(size: nat) returns (obj: Buddy.Option<nat>, ghost k: nat)
      requires Ok()
      modifies repr
      ensures Ok()
      ensures size > 8192 ==> obj.None?
      ensures size <= 8192 ==> k < |caches| && (obj.None? <==> old(Exhausted(k)))
      ensures size <= 8192 ==> size <= 32 * Pow2(k) && (k > 0 ==> 32 * Pow2(k - 1) < size)
      ensures obj.None? ==> buddy.Now() == old(buddy.Now()) && forall j | 0 <= j < CLASSES :: caches[j].Now() == old(caches[j].Now())
      ensures obj.Some? ==>
                && ServedAt(old(caches[k].Now()), caches[k].Now(), ClassSize(k), obj.value)
                && PagesTaken(old(buddy.Now()), old(caches[k].slabs.Keys), buddy.Now(), caches[k].slabs.Keys, caches[k].perSlabOrder)
                && forall j | 0 <= j < CLASSES && j != k :: caches[j].Now() == old(caches[j].Now())
    {
      var i := FindClass(size);
      if i >= CLASSES {
        return Buddy.None, 0;
      }
      LargeClassesEmpty(i);
      k := i;
      obj := AllocClass(i);
    }

    /** The loop of `kmalloc`. */
    static method FindClass(size: nat) returns (i: nat)
      ensures i < CLASSES ==> size <= 32 * Pow2(i) && (i > 0 ==> 32 * Pow2(i - 1) < size) && (i > 8 <==> size > 8192)
      ensures i >= CLASSES ==> size > 8192
    {
      i := 0;
      while i < CLASSES && ClassSize(i) < size
        invariant i <= CLASSES && forall j | 0 <= j < i :: ClassSize(j) < size
      {
        i := i + 1;
      }
      assert i == CLASSES ==> ClassSize(8) < size;
      if i < CLASSES {
        FirstClass(size, i);
      }
    }

    /** `freeByCache` on one cache, which touches nothing else. */
    static method FreeTo(cache: SlabAllocator.SlabCache, obj: nat, ghost o: Obj, ghost others: set<object>)
      requires cache.Ok() && o in cache.client && obj == Address(o, cache.objSize) && others !! OwnOf(cache)
      modifies OwnOf(cache)
      ensures cache.Ok()
      ensures ForeignKept(old(cache.buddy.Now()), cache.buddy.Now(), old(cache.slabs.Keys), cache.perSlabOrder)
      ensures PagesReturned(old(cache.buddy.Now()), old(cache.slabs.Keys), cache.buddy.Now(), cache.slabs.Keys, cache.perSlabOrder)
      ensures GaveBack(old(cache.Now()), cache.Now(), o)
      ensures forall x | x in others :: unchanged(x)
    {
      cache.FreeByCache(obj, o);
    }

    /** The same, as it concerns all caches. */
    method FreeClass(i: nat, obj: nat, ghost o: Obj)
      requires Ok() && i < CLASSES && o in caches[i].client && obj == Address(o, ClassSize(i))
      modifies repr
      ensures Ok() && GaveBack(old(caches[i].Now()), caches[i].Now(), o)
      ensures PagesReturned(old(buddy.Now()), old(caches[i].slabs.Keys), buddy.Now(), caches[i].slabs.Keys, caches[i].perSlabOrder)
      ensures forall j | 0 <= j < CLASSES && j != i :: caches[j].Now() == old(caches[j].Now())
    {
      PagesValid();
      ghost var s0, keys, c0 := buddy.Now(), caches[i].slabs.Keys, caches[i].Now();
      FreeTo(caches[i], obj, o, repr - OwnOf(caches[i]));
      assert GaveBack(c0, caches[i].Now(), o);
      forall j | 0 <= j < CLASSES && j != i
        ensures caches[j].CacheOk() && caches[j].Now() == old(caches[j].Now())
        ensures BlocksOk(s0, caches[j].slabs.Keys, caches[j].perSlabOrder, j)
      {
        OwnApart(i, j);
        assert unchanged(caches[j]) && unchanged(caches[j].localCache) && unchanged(caches[j].localCache.data);
        assert old(caches[j].Ok());
      }
      OneCacheCalled(s0, keys, i);
    }

    /** `kfree`: the page of the address names the cache. */
    method Kfree(obj: nat, ghost k: nat, ghost o: Obj)
      requires Ok() && k < CLASSES && o in caches[k].client && obj == Address(o, ClassSize(k))
      modifies repr
      ensures Ok() && GaveBack(old(caches[k].Now()), caches[k].Now(), o)
      ensures PagesReturned(old(buddy.Now()), old(caches[k].slabs.Keys), buddy.Now(), caches[k].slabs.Keys, caches[k].perSlabOrder)
      ensures forall j | 0 <= j < CLASSES && j != k :: caches[j].Now() == old(caches[j].Now())
    {
      ClientLeadsBack(k, o);
      var cache := buddy.memoryMap[PageOf(obj)].linkNext;
      FreeClass(cache, obj, o);
    }

    lemma ClientLeadsBack(k: nat, o: Obj)
      requires Wired() && k < CLASSES && caches[k].Ok() && o in caches[k].client
      ensures PageOf(Address(o, ClassSize(k))) < buddy.memoryMap.Length
      ensures buddy.memoryMap[PageOf(Address(o, ClassSize(k)))].linkNext == k
    {
      AddressLeadsBack(buddy.Now(), caches[k].Now(), o, caches[k].perSlabOrder, k, ClassSize(k));
    }

    /** Calls of other users of the page allocator leave the heap as it is. */
    lemma OutsideCallKeepsOk(s0: B.State)
      requires Wired() && buddy.Ok() && B.Valid(s0) && StandsOn(s0)
      requires forall i | 0 <= i < CLASSES :: OutsideCall(s0, buddy.Now(), caches[i].slabs.Keys)
      ensures Ok()
    {
      forall i | 0 <= i < CLASSES
        ensures caches[i].Ok()
      {
        OutsideCallKeepsBlocks(s0, buddy.Now(), caches[i].slabs.Keys, caches[i].perSlabOrder, i);
      }
    }

    /** Another user gets pages. */
    method AllocPagesOutside(order: nat) returns (page: Buddy.Option<nat>)
      requires Ok()
      modifies buddy, buddy.memoryMap
      ensures Ok() && (page.None? <==> !BuddyTheorems.FreeRunExists(old(buddy.tile), order))
      ensures forall i | 0 <= i < CLASSES :: caches[i].Now() == old(caches[i].Now())
    {
      PagesValid();
      ghost var s0 := buddy.Now();
      page := buddy.AllocPages(order);
      forall i | 0 <= i < CLASSES
        ensures caches[i].CacheOk() && caches[i].Now() == old(caches[i].Now())
        ensures BlocksOk(s0, caches[i].slabs.Keys, caches[i].perSlabOrder, i)
      {
        assert unchanged(caches[i]) && unchanged(caches[i].localCache) && unchanged(caches[i].localCache.data);
        assert old(caches[i].Ok());
      }
      if page.Some? {
        ghost var found := SlabAllocator.AllocatedFrom(s0, buddy.Now(), page.value, order);
        assert GotPages(s0, buddy.Now());
        OutsideCallKeepsOk(s0);
      }
    }

    /** Another user drops a reference to a block of its own. */
    method FreePagesOutside(page: nat, order: nat, putPage: int) returns (retval: int)
      requires Ok() && B.BlockAt(buddy.tile, page, B.Tile(order, B.Used)) && page + 1 < |buddy.tile|
      requires forall i | 0 <= i < CLASSES :: page !in caches[i].slabs
      modifies buddy, buddy.memoryMap
      ensures Ok()
      ensures forall i | 0 <= i < CLASSES :: caches[i].Now() == old(caches[i].Now())
    {
      PagesValid();
      ghost var s0 := buddy.Now();
      retval := buddy.FreePages(page, order, putPage);
      forall i | 0 <= i < CLASSES
        ensures caches[i].CacheOk() && caches[i].Now() == old(caches[i].Now())
        ensures BlocksOk(s0, caches[i].slabs.Keys, caches[i].perSlabOrder, i)
      {
        assert unchanged(caches[i]) && unchanged(caches[i].localCache) && unchanged(caches[i].localCache.data);
        assert old(caches[i].Ok());
      }
      if FreedOne(s0, buddy.Now(), page, order) || Recounted(s0, buddy.Now(), page, retval) {
        OutsideCallKeepsOk(s0);
      }
    }

    /** Objects in client hands never overlap each other. */
    lemma ClientsApart(k: nat, o: Obj, l: nat, p: Obj)
      requires Ok() && k < CLASSES && l < CLASSES && o in caches[k].client && p in caches[l].client && (o, k) != (p, l)
      ensures Apart(Address(o, ClassSize(k)), ClassSize(k), Address(p, ClassSize(l)), ClassSize(l))
    {
      ObjectsApart(buddy.Now(), caches[k].Now(), ClassSize(k), caches[k].perSlabOrder, k,
                   caches[l].Now(), ClassSize(l), caches[l].perSlabOrder, l, o, p);
    }

    /** Nor do they touch the `struct Slab` of any slab or any entry of its free chain. */
    lemma ClientsApartFromHeaders(k: nat, o: Obj, l: nat, b: nat)
      requires Ok() && k < CLASSES && l < CLASSES && o in caches[k].client && b in caches[l].slabs
      ensures Apart(Address(o, ClassSize(k)), ClassSize(k), b * 4096, 32)
      ensures forall i | 0 <= i < |caches[l].slabs[b].desc| ::
                Apart(Address(o, ClassSize(k)), ClassSize(k), b * 4096 + 32 + 4 * i, 4)
    {
      HeadersApart(buddy.Now(), caches[k].Now(), ClassSize(k), caches[k].perSlabOrder, k,
                   caches[l].Now(), caches[l].perSlabOrder, l, o, b);
    }
  }

  /** Sizes up to 8192 are for classes 0 to 8. */
  lemma FirstClass(size: nat, i: nat)
    requires ClassFor(size, i)
    ensures i > 8 <==> size > 8192
    ensures size <= 32 * Pow2(i) && (i > 0 ==> 32 * Pow2(i - 1) < size)
  {
    assert i > 0 ==> ClassSize(i - 1) < size;
    if i > 8 {
      assert ClassSize(8) < size;
    } else {
      Pow2Monotone(i, 8);
    }
  }
}
