/** The slab allocator, src/memory/slab.c, on top of the page allocator. */
module SlabAllocator {
  import opened Sets
  import Windows
  import B = BuddyState
  import Buddy
  import BuddyTheorems
  import opened SlabState
  import opened SlabBlocks

  /** `LocalSlabCache`: a stack of object addresses in a fixed array. */
  class LocalSlabCache {
    const data: array<nat>
    var avail: nat

    ghost predicate Valid()
      reads this
    {
      data.Length == LIMIT && avail <= LIMIT
    }

    ghost function Contents(): (s: seq<nat>)
      requires Valid()
      reads this, data
    {
      data[..avail]
    }

    constructor ()
      ensures Valid() && fresh(data) && Contents() == [] && avail == 0
    {
      var stack := new nat[LIMIT];
      data := stack;
      avail := 0;
    }

    /** `data[avail++] = obj`. */
    method Push(obj: nat)
      requires Valid() && avail < LIMIT
      modifies this, data
      ensures Valid() && avail == old(avail) + 1 && Contents() == old(Contents()) + [obj]
    {
      data[avail] := obj;
      avail := avail + 1;
    }

    /** `data[--avail]`. */
    method Pop() returns (obj: nat)
      requires Valid() && avail > 0
      modifies this
      ensures Valid() && avail == old(avail) - 1 && old(Contents()) == Contents() + [obj]
    {
      avail := avail - 1;
      obj := data[avail];
    }

    /** `avail -= count`. */
    method Drop(count: nat)
      requires Valid() && count <= avail
      modifies this
      ensures Valid() && avail == old(avail) - count && Contents() == old(Contents())[..avail]
    {
      avail := avail - count;
    }
  }

  class SlabCache {
    const buddy: Buddy.BuddySystem
    const id: int  // stands for the address of the cache
    const objSize: nat
    const perSlabOrder: nat
    var slabs: map<nat, Slab>  // by first page
    var slabFree: seq<nat>
    var slabPartial: seq<nat>
    var slabFull: seq<nat>
    var freeObjCount: int
    const localCache: LocalSlabCache

    ghost var chain: map<nat, seq<nat>>
    ghost var local: seq<Obj>
    ghost var client: set<Obj>

    ghost function Now(): Cache
      reads this
    {
      Cache(slabs, slabFree, slabPartial, slabFull, freeObjCount, chain, local, client)
    }

    /** The local stack holds the addresses of these objects. */
    ghost predicate StackHolds(objs: seq<Obj>)
      reads localCache, localCache.data
    {
      localCache.Valid() && localCache.Contents() == Addresses(objs, objSize)
    }

    ghost predicate StackOk()
      reads this, localCache, localCache.data
    {
      StackHolds(local)
    }

    ghost predicate Shape() {
      objSize > 0 && OrderFor(objSize, perSlabOrder)
    }

    ghost predicate CacheOk()
      reads this, localCache, localCache.data
    {
      Shape() && StackOk() && Inv(Now(), {})
    }

    ghost predicate PagesOk()
      reads this, buddy, buddy.memoryMap
    {
      buddy.Ok() && BlocksOk(buddy.Now(), slabs.Keys, perSlabOrder, id)
    }

    ghost predicate Ok()
      reads this, localCache, localCache.data, buddy, buddy.memoryMap
    {
      CacheOk() && PagesOk()
    }

    /** `initSlabCache`. */
    constructor (buddy: Buddy.BuddySystem, id: int, objSize: nat)
      requires buddy.Ok() && objSize > 0
      ensures Ok() && fresh(localCache) && fresh(localCache.data) && this.buddy == buddy && this.id == id && this.objSize == objSize
      ensures client == {} && slabs == map[]
    {
      this.buddy := buddy;
      this.id := id;
      this.objSize := objSize;
      var order := FindOrder(objSize);
      this.perSlabOrder := order;
      slabs, chain := map[], map[];
      slabFree, slabPartial, slabFull := [], [], [];
      freeObjCount := 0;
      var stack := new LocalSlabCache();
      localCache := stack;
      local, client := [], {};
      new;
      assert FreeObjs(Now()) == {};
    }

    // ----- Slabs -----

    /** `allocSlabForSlabCache`. */
    method AllocSlab() returns (ok: bool)
      requires Ok() && slabFree == [] && localCache.avail == 0
      modifies this, buddy, buddy.memoryMap
      ensures Ok() && localCache.avail == 0
      ensures ForeignKept(old(buddy.Now()), buddy.Now(), old(slabs.Keys), perSlabOrder)
      ensures !ok ==> Now() == old(Now()) && buddy.Now() == old(buddy.Now())
      ensures ok <==> BuddyTheorems.FreeRunExists(old(buddy.tile), perSlabOrder)
      ensures ok ==> client == old(client) && old(slabs.Keys) <= slabs.Keys && freeObjCount == old(freeObjCount) + OBJ_COUNT
      ensures Conserved(old(buddy.Now()), old(slabs.Keys), buddy.Now(), slabs.Keys, perSlabOrder)
    {
      ghost var c, s0 := Now(), buddy.Now();
      var page := AllocBlock();
      assert Now() == c;
      if page.Some? {
        ghost var s := buddy.Now();
        NewSlabKeepsInv(c, page.value);
        NewSlabBlocks(s, c, page.value, perSlabOrder, id);
        TakingConserves(s0, s, c, perSlabOrder, page.value);
        AddSlab(page.value);
        assert buddy.Now() == s && Now() == NewSlab(c, page.value);
      }
      ok := page.Some?;
    }

    /** `slabAllocPages` and the links of the pages: a block of the page allocator becomes the cache's own. */
    method AllocBlock() returns (page: Buddy.Option<nat>)
      requires buddy.Ok() && BlocksOk(buddy.Now(), slabs.Keys, perSlabOrder, id)
      modifies buddy, buddy.memoryMap
      ensures buddy.Ok()
      ensures page.Some? <==> BuddyTheorems.FreeRunExists(old(buddy.tile), perSlabOrder)
      ensures page.None? ==> buddy.Now() == old(buddy.Now())
      ensures ForeignKept(old(buddy.Now()), buddy.Now(), slabs.Keys, perSlabOrder)
      ensures BlocksOk(buddy.Now(), slabs.Keys, perSlabOrder, id)
      ensures page.Some? ==> page.value !in slabs && BlockOwned(buddy.Now(), page.value, perSlabOrder, id)
      ensures page.Some? ==> BlockReturned(buddy.Now(), old(buddy.Now()), page.value, perSlabOrder)
    {
      ghost var s0 := buddy.Now();
      page := buddy.AllocPages(perSlabOrder);
      if page.Some? {
        ghost var s1 := buddy.Now();
        ghost var found := AllocatedFrom(s0, s1, page.value, perSlabOrder);
        AllocatedInside(s0, s1, page.value, found, perSlabOrder);
        MarkPages(page.value, Windows.Pow2(perSlabOrder));
        BlockGained(s0, s1, buddy.Now(), slabs.Keys, perSlabOrder, id, page.value, found);
      }
    }

    method AddSlab(b: nat)
      requires StackOk()
      modifies this
      ensures StackOk() && localCache.avail == old(localCache.avail)
      ensures Now() == NewSlab(old(Now()), b)
    {
      slabs := slabs[b := Slab(0, 0, FreshDesc(OBJ_COUNT))];
      chain := chain[b := UpFrom(0, OBJ_COUNT)];
      slabFree := [b] + slabFree;
      freeObjCount := freeObjCount + OBJ_COUNT;
    }

    /** The loops over the pages of a new slab. */
    method MarkPages(b: nat, n: nat)
      requires b + n <= buddy.memoryMap.Length
      modifies buddy.memoryMap
      ensures buddy.Now() == old(buddy.Now()).(pages := Marked(old(buddy.Now()).pages, b, n, id))
    {
      ghost var pages := buddy.memoryMap[..];
      var i := 0;
      while i < n
        invariant 0 <= i <= n
        invariant buddy.memoryMap[..] == Marked(pages, b, i, id)
      {
        buddy.memoryMap[b + i] := buddy.memoryMap[b + i].(slab := true, linkPrev := b, linkNext := id);
        i := i + 1;
      }
    }

    // ----- Moving one slab or one object, on the cache's own fields -----

    /** One round of the inner loop of `refillCache`: the first free object of slab `b` goes on the local stack. */
    method TakeOne(b: nat)
      requires StackOk() && localCache.avail < LIMIT && CanTake(Now(), b)
      modifies this, localCache, localCache.data
      ensures localCache.avail == old(localCache.avail) + 1 && StackOk()
      ensures Now() == TakeObj(old(Now()), b)
    {
      var s := slabs[b];
      var o := Obj(b, s.nextFree);
      localCache.Push(Address(o, objSize));
      slabs := slabs[b := Slab(s.desc[s.nextFree], s.usedCount + 1, s.desc)];
      freeObjCount := freeObjCount - 1;
      chain := chain[b := chain[b][1..]];
      local := local + [o];
    }

    /** `listDelete`, then `listAdd` to another list. */
    method Relist(b: nat, w: Which, ghost stack: seq<Obj>)
      requires StackHolds(stack)
      modifies this
      ensures StackHolds(stack) && localCache.avail == old(localCache.avail)
      ensures Now() == MoveTo(old(Now()), b, w)
    {
      slabFree, slabPartial, slabFull := Without(slabFree, b), Without(slabPartial, b), Without(slabFull, b);
      match w {
        case OnFree => slabFree := [b] + slabFree;
        case OnPartial => slabPartial := [b] + slabPartial;
        case OnFull => slabFull := [b] + slabFull;
      }
    }

    // ----- Refilling the local stack -----

    /** The inner loop of `refillCache`. */
    method TakeFrom(b: nat, batch: nat) returns (batchCount: nat)
      requires StackOk() && Inv(Now(), {b}) && b in slabs && slabs[b].usedCount < OBJ_COUNT
      requires 0 < batch <= BATCH + 1 && localCache.avail + batch == BATCH + 1
      modifies this, localCache, localCache.data
      ensures StackOk() && Inv(Now(), {b}) && TookFrom(old(Now()), Now(), b)
      ensures batchCount < batch && BatchOk(batchCount, localCache.avail)
      ensures batchCount > 0 ==> slabs[b].usedCount == OBJ_COUNT
    {
      batchCount := batch;
      while slabs[b].usedCount < OBJ_COUNT
        invariant StackOk() && Inv(Now(), {b}) && TookFrom(old(Now()), Now(), b)
        invariant 0 < batchCount <= batch && localCache.avail + batchCount == BATCH + 1
        invariant batchCount == batch ==> slabs[b].usedCount < OBJ_COUNT
        decreases batchCount
      {
        batchCount := batchCount - 1;
        if batchCount == 0 {
          break;
        }
        TakeKeepsInv(Now(), b);
        TakeOne(b);
      }
    }

    /** One round of the outer loop of `refillCache`. */
    method FillFrom(b: nat, batch: nat, ghost c0: Cache) returns (batchCount: nat)
      requires StackOk() && Inv(Now(), {}) && Filling(c0, Now())
      requires if slabPartial != [] then b == slabPartial[0] else slabFree != [] && b == slabFree[0]
      requires 0 < batch <= BATCH + 1 && localCache.avail + batch == BATCH + 1
      modifies this, localCache, localCache.data
      ensures StackOk() && Inv(Now(), {}) && Filling(c0, Now())
      ensures batchCount < batch && BatchOk(batchCount, localCache.avail)
    {
      ghost var c := Now();
      FrontHasRoom(c, b);
      batchCount := TakeFrom(b, batch);
      ghost var r := RoundDone(c0, c, Now(), b);
      ghost var stack := local;
      Relist(b, ListAfterTaking(slabs[b]), stack);
      assert Now() == r && local == stack;
    }

    /** The outer loop of `refillCache`: objects come from partial slabs first, then from the free one. */
    method FillStack(batch: nat) returns (batchCount: nat)
      requires localCache.avail == 0 && batch == BATCH + 1 && StackOk() && Inv(Now(), {})
      modifies this, localCache, localCache.data
      ensures StackOk() && Inv(Now(), {}) && Filled(old(Now()), Now())
      ensures localCache.avail == 0 ==> Now() == old(Now()) && batchCount == batch && slabFree == []
    {
      ghost var c := Now();
      batchCount := batch;
      while batchCount > 0
        invariant StackOk() && Inv(Now(), {}) && BatchOk(batchCount, localCache.avail) && Filling(c, Now())
        invariant batchCount == batch ==> Now() == c
        decreases batchCount
      {
        if slabPartial == [] && slabFree == [] {
          ListsEmptyMeansNoneFree(Now());
          break;
        }
        var b := if slabPartial != [] then slabPartial[0] else slabFree[0];
        batchCount := FillFrom(b, batchCount, c);
      }
    }

    /** The object on top of the local stack goes to the client. */
    method HandOutTop() returns (obj: nat)
      requires StackOk() && local != []
      modifies this, localCache
      ensures StackOk() && Now() == HandOut(old(Now())) && obj == Address(old(local[|local| - 1]), objSize)
    {
      obj := localCache.Pop();
      ghost var o := local[|local| - 1];
      local, client := local[..|local| - 1], client + {o};
    }

    /** From the label `retry` of `refillCache` to its first return. */
    method TryStack(batch: nat) returns (obj: Buddy.Option<nat>, batchCount: nat)
      requires localCache.avail == 0 && batch == BATCH + 1 && StackOk() && Inv(Now(), {})
      modifies this, localCache, localCache.data
      ensures StackOk() && Inv(Now(), {}) && slabs.Keys == old(slabs.Keys)
      ensures obj.None? <==> old(freeObjCount) == 0
      ensures obj.None? ==> Now() == old(Now()) && localCache.avail == 0 && batchCount == batch && slabFree == []
      ensures obj.Some? ==> ServedAt(old(Now()), Now(), objSize, obj.value)
    {
      batchCount := FillStack(batch);
      if localCache.avail == 0 {
        return Buddy.None, batchCount;
      }
      HandOutKeepsInv(Now());
      var address := HandOutTop();
      obj := Buddy.Some(address);
    }

    /** The same, with the pages of the slabs in view. */
    method TryCache(batch: nat) returns (obj: Buddy.Option<nat>, batchCount: nat)
      requires localCache.avail == 0 && batch == BATCH + 1 && Ok()
      modifies this, localCache, localCache.data
      ensures Ok() && slabs.Keys == old(slabs.Keys) && buddy.Now() == old(buddy.Now())
      ensures obj.None? <==> old(freeObjCount) == 0
      ensures obj.None? ==> Now() == old(Now()) && localCache.avail == 0 && batchCount == batch && slabFree == []
      ensures obj.Some? ==> ServedAt(old(Now()), Now(), objSize, obj.value)
    {
      ghost var s := buddy.Now();
      obj, batchCount := TryStack(batch);
      assert buddy.Now() == s;
    }

    /** From the call of `allocSlabForSlabCache` to the next pass from the label, which finds objects. */
    method AllocAndRetry(batch: nat) returns (obj: Buddy.Option<nat>, batchCount: nat)
      requires Ok() && localCache.avail == 0 && batch == BATCH + 1 && freeObjCount == 0 && slabFree == []
      modifies this, localCache, localCache.data, buddy, buddy.memoryMap
      ensures Ok() && ForeignKept(old(buddy.Now()), buddy.Now(), old(slabs.Keys), perSlabOrder)
      ensures Conserved(old(buddy.Now()), old(slabs.Keys), buddy.Now(), slabs.Keys, perSlabOrder)
      ensures obj.None? <==> !BuddyTheorems.FreeRunExists(old(buddy.tile), perSlabOrder)
      ensures obj.None? ==> Now() == old(Now()) && buddy.Now() == old(buddy.Now())
      ensures obj.Some? ==> ServedAt(old(Now()), Now(), objSize, obj.value)
    {
      var ok := AllocSlab();
      if !ok {
        return Buddy.None, batch;
      }
      obj, batchCount := TryCache(batch);
    }

    /** `refillCache`: a new slab is made only if no object is left, and then the second try succeeds. */
    method RefillCache() returns (obj: Buddy.Option<nat>)
      requires Ok() && localCache.avail == 0
      modifies this, localCache, localCache.data, buddy, buddy.memoryMap
      ensures Ok()
      ensures ForeignKept(old(buddy.Now()), buddy.Now(), old(slabs.Keys), perSlabOrder)
      ensures Conserved(old(buddy.Now()), old(slabs.Keys), buddy.Now(), slabs.Keys, perSlabOrder)
      ensures obj.None? <==> old(freeObjCount) == 0 && !BuddyTheorems.FreeRunExists(old(buddy.tile), perSlabOrder)
      ensures obj.None? ==> Now() == old(Now()) && buddy.Now() == old(buddy.Now())
      ensures obj.Some? ==> ServedAt(old(Now()), Now(), objSize, obj.value)
    {
      var batchCount: nat;
      obj, batchCount := TryCache(BATCH + 1);
      while obj.None?
        invariant Ok() && ForeignKept(old(buddy.Now()), buddy.Now(), old(slabs.Keys), perSlabOrder)
        invariant Conserved(old(buddy.Now()), old(slabs.Keys), buddy.Now(), slabs.Keys, perSlabOrder)
        invariant obj.None? ==> Now() == old(Now()) && buddy.Now() == old(buddy.Now()) && freeObjCount == 0
        invariant obj.None? ==> localCache.avail == 0 && batchCount == BATCH + 1 && slabFree == []
        invariant obj.Some? ==> ServedAt(old(Now()), Now(), objSize, obj.value)
        invariant obj.Some? ==> old(freeObjCount) > 0 || BuddyTheorems.FreeRunExists(old(buddy.tile), perSlabOrder)
        decreases if obj.None? then 1 else 0
      {
        obj, batchCount := AllocAndRetry(batchCount);
        if obj.None? {
          return;
        }
      }
    }

    // ----- Flushing the local stack -----

    /** The loop of `slabFreePages`. */
    method UnmarkPages(b: nat, n: nat)
      requires b + n <= buddy.memoryMap.Length
      modifies buddy.memoryMap
      ensures buddy.Now() == old(buddy.Now()).(pages := Unmarked(old(buddy.Now()).pages, b, n))
    {
      ghost var pages := buddy.memoryMap[..];
      var i := 0;
      while i < n
        invariant 0 <= i <= n
        invariant buddy.memoryMap[..] == Unmarked(pages, b, i)
      {
        buddy.memoryMap[b + i] := buddy.memoryMap[b + i].(slab := false);
        i := i + 1;
      }
    }

    /** `slabFreePages`: the block of slab `b` goes back to the page allocator. */
    method FreeBlock(b: nat)
      requires buddy.Ok() && b in slabs && BlocksOk(buddy.Now(), slabs.Keys, perSlabOrder, id)
      modifies buddy, buddy.memoryMap
      ensures buddy.Ok()
      ensures BlocksOk(buddy.Now(), slabs.Keys - {b}, perSlabOrder, id)
      ensures ForeignKept(old(buddy.Now()), buddy.Now(), slabs.Keys, perSlabOrder)
      ensures BlockReturned(old(buddy.Now()), buddy.Now(), b, perSlabOrder) && BlockUnmarked(buddy.Now(), b, perSlabOrder)
    {
      ghost var s0 := buddy.Now();
      OwnedInside(s0, b, perSlabOrder, id);
      UnmarkedKeepsValid(s0, b, Windows.Pow2(perSlabOrder));
      UnmarkPages(b, Windows.Pow2(perSlabOrder));
      ghost var s1 := buddy.Now();
      var left := buddy.FreePages(b, perSlabOrder, 0);
      BlockLost(s0, s1, buddy.Now(), slabs.Keys, perSlabOrder, id, b);
      ReleaseReturns(s0, s1, buddy.Now(), b, perSlabOrder);
      ReleaseUnmarks(s0, s1, buddy.Now(), b, perSlabOrder);
    }

    /** `destorySlab`, as far as the cache is concerned. */
    method DropOne(b: nat, ghost stack: seq<Obj>)
      requires StackHolds(stack)
      modifies this
      ensures StackHolds(stack) && Now() == DropSlab(old(Now()), b)
    {
      freeObjCount := freeObjCount - OBJ_COUNT;
      slabFree, slabPartial, slabFull := Without(slabFree, b), Without(slabPartial, b), Without(slabFull, b);
      slabs, chain := slabs - {b}, chain - {b};
    }

    /** An object goes back to the free chain of slab `b`. */
    method GiveOne(b: nat, index: nat, ghost stack: seq<Obj>)
      requires StackHolds(stack) && local != [] && local[|local| - 1] == Obj(b, index) && CanFlush(Now())
      modifies this
      ensures StackHolds(stack) && Now() == GiveBack(old(Now()), Obj(b, index)) && slabs.Keys == old(slabs.Keys)
    {
      var s := slabs[b];
      slabs := slabs[b := Slab(index, s.usedCount - 1, s.desc[index := s.nextFree])];
      freeObjCount := freeObjCount + 1;
      chain := chain[b := [index] + chain[b]];
      local := local[..|local| - 1];
    }

    /** `destorySlab`. */
    method DestroySlab(b: nat, ghost stack: seq<Obj>)
      requires StackHolds(stack) && b in slabs
      requires buddy.Ok() && BlocksOk(buddy.Now(), slabs.Keys, perSlabOrder, id)
      modifies this, buddy, buddy.memoryMap
      ensures StackHolds(stack) && Now() == DropSlab(old(Now()), b)
      ensures buddy.Ok() && BlocksOk(buddy.Now(), slabs.Keys, perSlabOrder, id)
      ensures ForeignKept(old(buddy.Now()), buddy.Now(), old(slabs.Keys), perSlabOrder)
      ensures BlockReturned(old(buddy.Now()), buddy.Now(), b, perSlabOrder) && BlockUnmarked(buddy.Now(), b, perSlabOrder)
    {
      FreeBlock(b);
      ghost var s := buddy.Now();
      ghost var keys := slabs.Keys - {b};
      DropOne(b, stack);
      assert buddy.Now() == s && slabs.Keys == keys;
    }

    /** A slab that got an object back is destroyed or listed anew. */
    method SettleSlab(b: nat, ghost stack: seq<Obj>)
      requires Shape() && StackHolds(stack) && b in slabs && PagesOk()
      modifies this, buddy, buddy.memoryMap
      ensures StackHolds(stack) && Now() == Settle(old(Now()), b) && PagesOk()
      ensures ForeignKept(old(buddy.Now()), buddy.Now(), old(slabs.Keys), perSlabOrder)
      ensures Conserved(old(buddy.Now()), old(slabs.Keys), buddy.Now(), slabs.Keys, perSlabOrder)
    {
      if slabs[b].usedCount == 0 && freeObjCount > FREE_LIMIT {
        ghost var s0, keys := buddy.Now(), slabs.Keys;
        DestroySlab(b, stack);
        ReturnConserves(s0, buddy.Now(), keys, perSlabOrder, b);
        assert slabs.Keys == keys - {b};
      } else {
        ghost var s := buddy.Now();
        Relist(b, if slabs[b].usedCount == 0 then OnFree else OnPartial, stack);
        assert buddy.Now() == s;
      }
    }

    /** One round of `flushLocalCache`: the page of an address leads back to its slab. */
    method FlushTop(obj: nat, ghost stack: seq<Obj>)
      requires Shape() && StackHolds(stack) && Inv(Now(), {}) && PagesOk()
      requires local != [] && obj == Address(local[|local| - 1], objSize)
      modifies this, buddy, buddy.memoryMap
      ensures StackHolds(stack) && CanFlush(old(Now())) && Now() == FlushOne(old(Now())) && PagesOk()
      ensures ForeignKept(old(buddy.Now()), buddy.Now(), old(slabs.Keys), perSlabOrder)
      ensures Conserved(old(buddy.Now()), old(slabs.Keys), buddy.Now(), slabs.Keys, perSlabOrder)
    {
      ghost var c, s := Now(), buddy.Now();
      FlushOneKeepsInv(c);
      AddressLeadsBack(s, c, local[|local| - 1], perSlabOrder, id, objSize);
      var slab := buddy.memoryMap[PageOf(obj)].linkPrev;
      var objnr := IndexIn(obj, slab, objSize);
      GiveOne(slab, objnr, stack);
      assert buddy.Now() == s;
      SettleSlab(slab, stack);
    }

    lemma StackEntry(objs: seq<Obj>, i: nat)
      requires StackHolds(objs) && i < |objs|
      ensures i < localCache.data.Length && localCache.data[i] == Address(objs[i], objSize)
    {
      assert localCache.Contents()[i] == Addresses(objs, objSize)[i];
    }

    /** What the first `n` rounds of a flush keep; the local stack is not shortened before the end. */
    ghost predicate Flushing(c: Cache, s: B.State, n: nat)
      reads this, localCache, localCache.data, buddy, buddy.memoryMap
    {
      && Flushed(c, Now(), n) && Inv(Now(), {}) && Shape() && StackHolds(c.local)
      && PagesOk() && ForeignKept(s, buddy.Now(), c.slabs.Keys, perSlabOrder)
      && Conserved(s, c.slabs.Keys, buddy.Now(), slabs.Keys, perSlabOrder)
    }

    method FlushRound(i: nat, ghost c: Cache, ghost s: B.State)
      requires |c.local| == LIMIT && i < LIMIT && Flushing(c, s, i)
      modifies this, buddy, buddy.memoryMap
      ensures Flushing(c, s, i + 1) && CanFlush(old(Now())) && Now() == FlushOne(old(Now()))
    {
      ghost var s1, keys := buddy.Now(), slabs.Keys;
      FlushNth(i, c);
      ghost var s2, keys2 := buddy.Now(), slabs.Keys;
      ForeignKeptTransitive(s, s1, s2, c.slabs.Keys, keys, perSlabOrder);
      ConservedTransitive(s, c.slabs.Keys, s1, keys, s2, keys2, perSlabOrder);
    }

    /** The body of the loop: entry `limit - i - 1` of the stack. */
    method FlushNth(i: nat, ghost c: Cache)
      requires |c.local| == LIMIT && i < LIMIT && Flushed(c, Now(), i)
      requires Shape() && StackHolds(c.local) && Inv(Now(), {}) && PagesOk()
      modifies this, buddy, buddy.memoryMap
      ensures Flushed(c, Now(), i + 1) && CanFlush(old(Now())) && Now() == FlushOne(old(Now()))
      ensures StackHolds(c.local) && Inv(Now(), {}) && PagesOk()
      ensures ForeignKept(old(buddy.Now()), buddy.Now(), old(slabs.Keys), perSlabOrder)
      ensures Conserved(old(buddy.Now()), old(slabs.Keys), buddy.Now(), slabs.Keys, perSlabOrder)
    {
      FlushStep(c, Now(), i);
      StackEntry(c.local, LIMIT - i - 1);
      var obj := localCache.data[LIMIT - i - 1];
      ghost var o := c.local[LIMIT - i - 1];
      assert local[|local| - 1] == o && obj == Address(o, objSize);
      FlushTop(obj, c.local);
    }

    /** `flushLocalCache`. */
    method FlushLocalCache()
      requires Ok() && |local| == LIMIT
      modifies this, localCache, buddy, buddy.memoryMap
      ensures Ok() && Flushed(old(Now()), Now(), BATCH)
      ensures ForeignKept(old(buddy.Now()), buddy.Now(), old(slabs.Keys), perSlabOrder)
      ensures PagesReturned(old(buddy.Now()), old(slabs.Keys), buddy.Now(), slabs.Keys, perSlabOrder)
    {
      ghost var c, s := Now(), buddy.Now();
      var i := 0;
      while i < BATCH
        invariant 0 <= i <= BATCH && Flushing(c, s, i)
        modifies this, buddy, buddy.memoryMap
      {
        FlushRound(i, c, s);
        i := i + 1;
      }
      ghost var c1, s1 := Now(), buddy.Now();
      localCache.Drop(BATCH);
      assert Now() == c1 && buddy.Now() == s1;
      AddressesOfPrefix(c.local, objSize, LIMIT - BATCH);
      ReturnedIfConserved(s, c.slabs.Keys, s1, slabs.Keys, perSlabOrder, id);
    }

    // ----- The interface -----

    /** `allocByCache`: the last object freed comes first; there is none only if neither the cache
        nor the page allocator has anything left. */
    method AllocByCache() returns (obj: Buddy.Option<nat>)
      requires Ok()
      modifies this, localCache, localCache.data, buddy, buddy.memoryMap
      ensures Ok()
      ensures ForeignKept(old(buddy.Now()), buddy.Now(), old(slabs.Keys), perSlabOrder)
      ensures PagesTaken(old(buddy.Now()), old(slabs.Keys), buddy.Now(), slabs.Keys, perSlabOrder)
      ensures Outcome(old(Now()), old(buddy.Now()), Now(), buddy.Now(), perSlabOrder, objSize, obj)
      ensures old(local) != [] ==>
                obj == Buddy.Some(Address(old(local[|local| - 1]), objSize)) && Now() == HandOut(old(Now())) && buddy.Now() == old(buddy.Now())
    {
      if localCache.avail > 0 {
        HandOutKeepsInv(Now());
        var address := HandOutTop();
        assert buddy.Now() == old(buddy.Now());
        return Buddy.Some(address);
      }
      assert Addresses(local, objSize) == [] && |local| == 0;
      ghost var s, keys := buddy.Now(), slabs.Keys;
      obj := RefillCache();
      ReturnedIfConserved(buddy.Now(), slabs.Keys, s, keys, perSlabOrder, id);
    }

    /** The object at address `obj` goes on the local stack. */
    method TakeBackOne(obj: nat, ghost o: Obj)
      requires StackOk() && obj == Address(o, objSize) && localCache.avail < LIMIT
      modifies this, localCache, localCache.data
      ensures StackOk() && Now() == TakeBack(old(Now()), o) && slabs == old(slabs) && buddy.Now() == old(buddy.Now())
    {
      localCache.Push(obj);
      local, client := local + [o], client - {o};
    }

    /** The guard at the start of `freeByCache`. */
    method FlushIfFull()
      requires Ok()
      modifies this, localCache, buddy, buddy.memoryMap
      ensures Ok() && localCache.avail < LIMIT && RoomMade(old(Now()), Now())
      ensures ForeignKept(old(buddy.Now()), buddy.Now(), old(slabs.Keys), perSlabOrder)
      ensures PagesReturned(old(buddy.Now()), old(slabs.Keys), buddy.Now(), slabs.Keys, perSlabOrder)
    {
      assert |Addresses(local, objSize)| == |local|;
      if localCache.avail == LIMIT {
        FlushLocalCache();
        assert |Addresses(local, objSize)| == |local|;
      }
    }

    /** `freeByCache`: the object goes on the local stack, which is flushed first if it is full. */
    method FreeByCache(obj: nat, ghost o: Obj)
      requires Ok() && o in client && obj == Address(o, objSize)
      modifies this, localCache, localCache.data, buddy, buddy.memoryMap
      ensures Ok()
      ensures ForeignKept(old(buddy.Now()), buddy.Now(), old(slabs.Keys), perSlabOrder)
      ensures PagesReturned(old(buddy.Now()), old(slabs.Keys), buddy.Now(), slabs.Keys, perSlabOrder)
      ensures GaveBack(old(Now()), Now(), o) && client == old(client) - {o}
      ensures local == old(local)[..if |old(local)| == 80 then 64 else |old(local)|] + [o]
    {
      ghost var c0 := Now();
      assert |Addresses(local, objSize)| == |local|;
      FlushIfFull();
      ghost var c := Now();
      TakeBackKeepsInv(c, o);
      TakeBackOne(obj, o);
      GaveBackOnTop(c0, Now(), o);
    }
  }

  /** Neither the cache nor the page allocator has anything left. */
  ghost predicate Exhausted(c: Cache, s: B.State, order: nat) {
    c.local == [] && c.freeObjCount == 0 && !BuddyTheorems.FreeRunExists(s.tile, order)
  }

  /** What `allocByCache` answers: nothing only if nothing is left, and then nothing has changed. */
  ghost predicate Outcome(c: Cache, s: B.State, r: Cache, t: B.State, order: nat, objSize: nat, obj: Buddy.Option<nat>) {
    if obj.None? then Exhausted(c, s, order) && r == c && t == s
    else !Exhausted(c, s, order) && ServedAt(c, r, objSize, obj.value)
  }

  /** Objects on the stack after part of a batch: a batch of 17 yields 16 objects. */
  predicate BatchOk(batchCount: nat, avail: nat) {
    if batchCount == 0 then avail == BATCH else avail + batchCount == BATCH + 1
  }

  lemma AllocatedFrom(s0: B.State, s1: B.State, page: nat, order: nat) returns (found: nat)
    requires Buddy.FromFirstList(s0, s1, page, order)
    ensures B.Allocated(s0, s1, page, found, order)
  {
    found :| order <= found < B.MAX_ORDER == |s0.lists| &&
             Buddy.FirstListFrom(s0.lists, order, found) && page == s0.lists[found][0] && B.Allocated(s0, s1, page, found, order);
  }

  lemma AllocatedInside(s0: B.State, s1: B.State, page: nat, found: nat, order: nat)
    requires B.Valid(s1) && B.Allocated(s0, s1, page, found, order)
    ensures page + Windows.Pow2(order) <= |s1.tile| == |s1.pages|
  {
    assert Windows.Fits(|s1.tile|, page, order);
  }
}
