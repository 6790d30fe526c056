/** The physical page allocator, src/memory/buddy.c. */
module Buddy {
  import opened Sets
  import opened Windows
  import opened BuddyState
  import BuddyTheorems

  const EPERM: int := 1

  datatype Option<T> = None | Some(value: T)

  class BuddySystem {
    const memoryMap: array<Page>
    var buddyFreeList: seq<seq<nat>>
    var freePhysicsPageCount: int
    ghost var tile: seq<Tile>

    ghost function Now(): State
      reads this, memoryMap
    {
      State(memoryMap[..], buddyFreeList, freePhysicsPageCount, tile)
    }

    ghost predicate Ok()
      reads this, memoryMap
    {
      Valid(Now())
    }

    /** Neither reserved nor looked after by the page cache. */
    static predicate Plain(p: Page) {
      !p.reserved && !p.pageCache
    }

    /** `initBuddySystem`: every page starts out referenced, as a block of its own. */
    constructor (physicsPageCount: nat)
      ensures Ok() && fresh(memoryMap)
      ensures |tile| == physicsPageCount && forall i | 0 <= i < |tile| :: tile[i] == Tile(0, Used)
      ensures forall i | 0 <= i < |tile| :: memoryMap[i] == Page(1, false, false, false, false, 0, 0, 0)
    {
      var descriptors := new Page[physicsPageCount](_ => Page(1, false, false, false, false, 0, 0, 0));
      memoryMap := descriptors;
      buddyFreeList := seq(MAX_ORDER, _ => []);
      freePhysicsPageCount := 0;
      tile := seq(physicsPageCount, _ => Tile(0, Used));
      new;
      BuddyTheorems.InitialState(Now());
    }

    /** `freePages`, also known as `dereferencePage`: drops a reference; the last one puts the
        block back, merged with its buddies as far as they are free. `putPage` stands for the answer
        of the page cache, which looks after its own pages. */
    method FreePages(page: nat, order: nat, putPage: int) returns (retval: int)
      requires Ok() && BlockAt(tile, page, Tile(order, Used)) && page + 1 < |tile|
      modifies this, memoryMap
      ensures Ok()
      ensures old(memoryMap[page].reserved) ==> retval == -1 && Now() == old(Now())
      ensures old(!memoryMap[page].reserved && memoryMap[page].pageCache) ==> retval == putPage && Now() == old(Now())
      ensures old(Plain(memoryMap[page])) ==> retval == old(memoryMap[page].count) - 1
      ensures old(Plain(memoryMap[page])) && retval != 0 ==>
                Now() == old(Now()).(pages := old(memoryMap[..])[page := old(memoryMap[page]).(count := retval)])
      ensures old(Plain(memoryMap[page])) && retval == 0 ==>
                Now() == Freed(old(Now()), page) && Released(old(Now()), Now(), page, order)
    {
      ghost var s0 := Now();
      BuddyTheorems.UsedCount(s0, page);
      if memoryMap[page].reserved {
        return -EPERM;
      }
      if memoryMap[page].pageCache {
        return putPage;
      }
      retval := memoryMap[page].count - 1;
      SetPage(page, memoryMap[page].(count := retval));
      if retval != 0 {
        BuddyTheorems.CountOnly(s0, page, retval);
        return;
      }
      PutBlock(page, order, s0);
    }

    /** The rest of `freePages` when the last reference to a block is gone. */
    method PutBlock(page: nat, order: nat, ghost s0: State)
      requires Valid(s0) && BlockAt(s0.tile, page, Tile(order, Used)) && page + 1 < |s0.tile| && Plain(s0.pages[page])
      requires Now() == s0.(pages := s0.pages[page := s0.pages[page].(count := 0)])
      modifies this, memoryMap
      ensures Ok() && Now() == Freed(s0, page) && Released(s0, Now(), page, order)
    {
      ghost var r := FreedIsReleased(s0, page, order);
      freePhysicsPageCount := freePhysicsPageCount + Pow2(order);
      tile := SetWindow(tile, page, order, Tile(order, InHand));
      assert Now() == Grasp(s0, page);
      var pageIndex, k := MergeBuddies(page, order);
      PutBack(pageIndex, k);
      assert Now() == r;
    }

    /** `referencePage`: one user more. */
    method ReferencePage(page: nat)
      requires Ok() && page < |tile| && BlockAt(tile, page, Tile(tile[page].order, Used))
      modifies memoryMap
      ensures Ok()
      ensures Now() == old(Now()).(pages := old(memoryMap[..])[page := old(memoryMap[page]).(count := old(memoryMap[page].count) + 1)])
    {
      ghost var s0 := Now();
      BuddyTheorems.UsedCount(s0, page);
      BuddyTheorems.CountOnly(s0, page, memoryMap[page].count + 1);
      SetPage(page, memoryMap[page].(count := memoryMap[page].count + 1));
    }

    /** The loop of `parseMemoryInformation` over one usable range: its pages become free, and no others. */
    method Feed(start: nat, end: nat)
      requires Ok() && end < |tile| && Fresh(Now(), start, end)
      modifies this, memoryMap
      ensures Ok() && Fed(old(tile), tile, start, if start < end then end else start)
    {
      ghost var t0 := tile;
      var j := start;
      while j < end
        invariant start <= j && (j <= end || j == start) && Feeding(t0, start, j, end)
      {
        FeedPage(t0, start, j, end);
        j := j + 1;
      }
    }

    ghost predicate Feeding(t0: seq<Tile>, start: nat, j: nat, end: nat)
      reads this, memoryMap
    {
      Ok() && end < |tile| && Fresh(Now(), j, end) && Fed(t0, tile, start, j)
    }

    method FeedPage(ghost t0: seq<Tile>, ghost start: nat, j: nat, ghost end: nat)
      requires start <= j < end && Feeding(t0, start, j, end)
      modifies this, memoryMap
      ensures Feeding(t0, start, j + 1, end)
    {
      ghost var s := Now();
      var left := FreePages(j, 0, 0);
      FedOne(t0, s, Now(), start, j, end);
    }

    /** The merging loop of `freePages`: stops at the top order or at a buddy that is not free. */
    method MergeBuddies(page: nat, order: nat) returns (pageIndex: nat, k: nat)
      requires Merging(Now(), page, page, order)
      modifies this, memoryMap
      ensures Gathering(Now(), pageIndex, k) == MergeUp(old(Now()), page, page, order)
      ensures pageIndex < memoryMap.Length && k < |buddyFreeList|
    {
      pageIndex, k := page, order;
      ghost var goal := MergeUp(Now(), page, page, order);
      while k < MAX_ORDER - 1
        invariant MergesTo(page, pageIndex, k, goal)
        decreases MAX_ORDER - k
      {
        var buddyIndex := Xor(pageIndex, Pow2(k));
        var merged := MergeOnce(page, pageIndex, buddyIndex, k, goal);
        if !merged {
          return;
        }
        pageIndex := And(pageIndex, buddyIndex);
        k := k + 1;
      }
      MergeEnds(page, pageIndex, k, goal);
    }

    /** What is left of the loop, for the block in hand, leads to `goal`. */
    ghost predicate MergesTo(page: nat, pageIndex: nat, k: nat, goal: Gathering)
      reads this, memoryMap
    {
      Merging(Now(), page, pageIndex, k) && MergeUp(Now(), page, pageIndex, k) == goal
    }

    lemma MergeEnds(page: nat, pageIndex: nat, k: nat, goal: Gathering)
      requires MergesTo(page, pageIndex, k, goal) && k >= TOP_ORDER
      ensures Gathering(Now(), pageIndex, k) == goal && pageIndex < memoryMap.Length && k < |buddyFreeList|
    {
      MergeStops(Now(), page, pageIndex, k);
    }

    /** One turn of the loop. */
    method MergeOnce(page: nat, ghost pageIndex: nat, buddyIndex: nat, k: nat, ghost goal: Gathering) returns (merged: bool)
      requires MergesTo(page, pageIndex, k, goal) && k < TOP_ORDER && buddyIndex == BuddyOf(pageIndex, k)
      modifies this, memoryMap
      ensures merged ==> MergesTo(page, And(pageIndex, buddyIndex), k + 1, goal)
      ensures !merged ==> Gathering(Now(), pageIndex, k) == goal && pageIndex < memoryMap.Length && k < |buddyFreeList|
    {
      BuddyInMap(Now(), page, pageIndex, k);
      merged := PageIsBuddy(memoryMap[buddyIndex], k);
      if merged {
        ghost var s := MergeNext(Now(), page, pageIndex, k);
        MergeBuddy(page, pageIndex, buddyIndex, k);
        assert Now() == s;
      } else {
        MergeStops(Now(), page, pageIndex, k);
      }
    }

    /** The common part of the three allocators: `page` leaves list `found` and is split down to `order`. */
    method TakeBlock(page: nat, found: nat, order: nat)
      requires Ok() && order <= found < MAX_ORDER && page in buddyFreeList[found]
      modifies this, memoryMap
      ensures Ok()
      ensures Allocated(old(Now()), Now(), page, found, order) && Now() == Carve(old(Now()), page, found, order)
    {
      ghost var s0 := Now();
      TakeKeepsCore(s0, page, found);
      ghost var r := CarveKeepsValid(s0, page, found, order);
      TakeOff(page, found);
      SplitBlock(page, found, order);
      ghost var d := CarveDown(Take(s0, page, found), page, found, order);
      assert Now() == d;
      freePhysicsPageCount := freePhysicsPageCount - Pow2(order);
      assert Now() == Charge(d, order);
    }

    /** The splitting loop of the allocators. */
    method SplitBlock(page: nat, found: nat, order: nat)
      requires InUse(Now(), page, found) && order <= found
      modifies this, memoryMap
      ensures Now() == CarveDown(old(Now()), page, found, order)
    {
      ghost var goal := CarveDown(Now(), page, found, order);
      var currentOrder, size := found, Pow2(found);
      while currentOrder > order
        invariant order <= currentOrder && size == Pow2(currentOrder) && SplitsTo(page, currentOrder, order, goal)
      {
        size := SplitHalf(page, currentOrder, size, order, goal);
        currentOrder := currentOrder - 1;
      }
    }

    /** What is left of the loop leads to `goal`. */
    ghost predicate SplitsTo(page: nat, k: nat, order: nat, goal: State)
      reads this, memoryMap
    {
      InUse(Now(), page, k) && CarveDown(Now(), page, k, order) == goal
    }

    /** One turn of the loop. */
    method SplitHalf(page: nat, k: nat, size: nat, ghost order: nat, ghost goal: State) returns (half: nat)
      requires SplitsTo(page, k, order, goal) && order < k && size == Pow2(k)
      modifies this, memoryMap
      ensures half == Pow2(k - 1) && SplitsTo(page, k - 1, order, goal)
    {
      ghost var s := SplitNext(Now(), page, k, order);
      half := SplitOff(page, k, size);
      assert Now() == s;
    }

    // ----- Single steps, each on the descriptors, the lists and the tiling at once -----

    method SetPage(i: nat, p: Page)
      requires i < memoryMap.Length
      modifies memoryMap
      ensures memoryMap[..] == old(memoryMap[..])[i := p]
    {
      memoryMap[i] := p;
    }

    method MergeBuddy(page: nat, ghost pageIndex: nat, buddyIndex: nat, k: nat)
      requires page < memoryMap.Length && k < |buddyFreeList|
      requires buddyIndex == BuddyOf(pageIndex, k) && buddyIndex in buddyFreeList[k]
      modifies this, memoryMap
      ensures Now() == Merge(old(Now()), pageIndex, k, page)
    {
      tile := SetWindow(tile, pageIndex, k + 1, Tile(k + 1, InHand));
      SetPage(page, memoryMap[page].(reserved := false, data := false, slab := false, pageCache := false, value := 0));
      buddyFreeList := buddyFreeList[k := Without(buddyFreeList[k], buddyIndex)];
    }

    method PutBack(pageIndex: nat, k: nat)
      requires pageIndex < memoryMap.Length && k < |buddyFreeList|
      modifies this, memoryMap
      ensures Now() == Release(old(Now()), pageIndex, k)
    {
      tile := SetWindow(tile, pageIndex, k, Tile(k, Free));
      SetPage(pageIndex, memoryMap[pageIndex].(data := true, value := k, count := 0));
      buddyFreeList := buddyFreeList[k := buddyFreeList[k] + [pageIndex]];
    }

    method TakeOff(page: nat, k: nat)
      requires page < memoryMap.Length && k < |buddyFreeList| && page in buddyFreeList[k]
      modifies this, memoryMap
      ensures Now() == Take(old(Now()), page, k)
    {
      tile := SetWindow(tile, page, k, Tile(k, Used));
      buddyFreeList := buddyFreeList[k := Without(buddyFreeList[k], page)];
      SetPage(page, memoryMap[page].(count := memoryMap[page].count + 1, data := false, value := 0));
    }

    method SplitOff(page: nat, k: nat, size: nat) returns (half: nat)
      requires 0 < k <= |buddyFreeList| && size == Pow2(k)
      requires Head(page, k) && BuddyOf(page, k - 1) < memoryMap.Length
      modifies this, memoryMap
      ensures half == Pow2(k - 1)
      ensures Now() == Split(old(Now()), page, k - 1)
    {
      var order := k - 1;
      half := size / 2;
      var buddy := page + half;
      UpperHalf(page, order);
      tile := Halve(tile, page, order, Used, Free);
      buddyFreeList := buddyFreeList[order := buddyFreeList[order] + [buddy]];
      SetPage(buddy, memoryMap[buddy].(data := true, value := order));
    }

    /** `allocPages`: nothing is found only when no aligned run of 2^order pages is free. */
    method AllocPages(order: nat) returns (page: Option<nat>)
      requires Ok()
      modifies this, memoryMap
      ensures Ok()
      ensures page.None? ==> Now() == old(Now())
      ensures page.None? <==> !BuddyTheorems.FreeRunExists(old(tile), order)
      ensures page.Some? ==> FromFirstList(old(Now()), Now(), page.value, order)
    {
      var currentOrder := order;
      while currentOrder < MAX_ORDER
        invariant order <= currentOrder
        invariant Now() == old(Now())
        invariant forall k | order <= k < currentOrder && k < MAX_ORDER :: buddyFreeList[k] == []
      {
        if buddyFreeList[currentOrder] != [] {
          var head := buddyFreeList[currentOrder][0];
          BuddyTheorems.ListedMeansFreeRun(Now(), currentOrder, head, order);
          TakeBlock(head, currentOrder, order);
          return Some(head);
        }
        currentOrder := currentOrder + 1;
      }
      BuddyTheorems.EmptyListsMeanNoFreeRun(Now(), order);
      page := None;
    }

    /** `allocAlignedPages`: same page and same state as `allocPages`, whatever the alignment test. */
    method AllocAlignedPages(order: nat) returns (page: Option<nat>)
      requires Ok()
      modifies this, memoryMap
      ensures Ok()
      ensures page.None? ==> Now() == old(Now())
      ensures page.None? <==> !BuddyTheorems.FreeRunExists(old(tile), order)
      ensures page.Some? ==> FromFirstList(old(Now()), Now(), page.value, order)
    {
      var currentOrder := order;
      while currentOrder < MAX_ORDER
        invariant order <= currentOrder
        invariant Now() == old(Now())
        invariant forall k | order <= k < currentOrder && k < MAX_ORDER :: buddyFreeList[k] == []
      {
        var found := FirstAligned(buddyFreeList[currentOrder], order);
        FirstAlignedIsFirst(Now(), currentOrder, order, found);
        if found.Some? {
          BuddyTheorems.ListedMeansFreeRun(Now(), currentOrder, found.value, order);
          TakeBlock(found.value, currentOrder, order);
          return found;
        }
        currentOrder := currentOrder + 1;
      }
      BuddyTheorems.EmptyListsMeanNoFreeRun(Now(), order);
      page := None;
    }

    static method FirstAligned(list: seq<nat>, order: nat) returns (page: Option<nat>)
      ensures page.None? <==> forall i | 0 <= i < |list| :: BuddyTheorems.Misaligned(list[i], order)
      ensures page.Some? ==> FirstOf(list, page.value, MisalignedSet(list, order))
    {
      var i := 0;
      while i < |list|
        invariant 0 <= i <= |list|
        invariant forall j | 0 <= j < i :: BuddyTheorems.Misaligned(list[j], order)
      {
        if !BuddyTheorems.Misaligned(list[i], order) {
          return Some(list[i]);
        }
        i := i + 1;
      }
      page := None;
    }

    /** `allocDMAPages`: finds a block exactly when some wholly free aligned run of 2^order pages
        begins below 2^max; the block lies wholly below 2^max if that is at least its size. */
    method AllocDMAPages(order: nat, max: nat) returns (page: Option<nat>)
      requires Ok() && max < 64
      modifies this, memoryMap
      ensures Ok()
      ensures page.None? ==> Now() == old(Now())
      ensures page.None? <==> !BuddyTheorems.FreeRunBelow(old(tile), order, max)
      ensures page.Some? ==> FromFirstBelow(old(Now()), Now(), page.value, order, max)
      ensures page.Some? && 12 + order <= max ==>
                BuddyTheorems.WhollyBelow(page.value, order, max)
    {
      var found;
      found, page := FindBelow(order, max);
      if page.Some? {
        ghost var s0 := Now();
        BuddyTheorems.ListedBelow(s0, found, page.value, order, max);
        TakeBlock(page.value, found, order);
        BelowWasFound(s0, Now(), page.value, found, order, max);
      } else {
        BuddyTheorems.NoneListedBelow(Now(), order, max);
      }
    }

    /** The search of `allocDMAPages`: the first block that begins below 2^max, smallest lists first. */
    method FindBelow(order: nat, max: nat) returns (found: nat, page: Option<nat>)
      requires |buddyFreeList| == MAX_ORDER
      ensures page.None? ==> forall k | order <= k < MAX_ORDER :: AllBeyond(buddyFreeList[k], max)
      ensures page.Some? ==>
                && order <= found < MAX_ORDER && page.value in buddyFreeList[found]
                && FirstOf(buddyFreeList[found], page.value, BeyondSet(buddyFreeList[found], max))
                && forall k | order <= k < found :: AllBeyond(buddyFreeList[k], max)
    {
      found := order;
      page := None;
      while found < MAX_ORDER
        invariant order <= found && page == None
        invariant forall k | order <= k < found && k < MAX_ORDER :: AllBeyond(buddyFreeList[k], max)
      {
        page := FirstBelow(buddyFreeList[found], max);
        if page.Some? {
          return;
        }
        found := found + 1;
      }
    }

    static method FirstBelow(list: seq<nat>, max: nat) returns (page: Option<nat>)
      ensures page.None? <==> AllBeyond(list, max)
      ensures page.Some? ==> FirstOf(list, page.value, BeyondSet(list, max))
    {
      var i := 0;
      while i < |list|
        invariant 0 <= i <= |list|
        invariant forall j | 0 <= j < i :: BuddyTheorems.Beyond(list[j], max)
      {
        if !BuddyTheorems.Beyond(list[i], max) {
          return Some(list[i]);
        }
        i := i + 1;
      }
      page := None;
    }
  }

  ghost predicate AllBeyond(list: seq<nat>, max: nat) {
    forall x | x in list :: BuddyTheorems.Beyond(x, max)
  }

  /** `page` is the first block of list `found` that begins below 2^max; no smaller list has one. */
  ghost predicate FoundBelow(s0: State, s: State, page: nat, found: nat, order: nat, max: nat) {
    && order <= found < MAX_ORDER == |s0.lists|
    && FirstOf(s0.lists[found], page, BeyondSet(s0.lists[found], max))
    && (forall k | order <= k < found :: AllBeyond(s0.lists[k], max))
    && Allocated(s0, s, page, found, order)
  }

  lemma BelowWasFound(s0: State, s: State, page: nat, found: nat, order: nat, max: nat)
    requires FoundBelow(s0, s, page, found, order, max)
    ensures FromFirstBelow(s0, s, page, order, max)
  {
  }

  ghost predicate FromFirstBelow(s0: State, s: State, page: nat, order: nat, max: nat) {
    exists found :: FoundBelow(s0, s, page, found, order, max)
  }

  lemma FirstAlignedIsFirst(s: State, k: nat, order: nat, found: Option<nat>)
    requires Valid(s) && order <= k < MAX_ORDER
    requires found.None? <==> forall i | 0 <= i < |s.lists[k]| :: BuddyTheorems.Misaligned(s.lists[k][i], order)
    requires found.Some? ==> FirstOf(s.lists[k], found.value, MisalignedSet(s.lists[k], order))
    ensures found.None? <==> s.lists[k] == []
    ensures found.Some? ==> found.value == s.lists[k][0]
  {
    if s.lists[k] != [] {
      BuddyTheorems.NoneMisaligned(s, k, order, 0);
    }
  }

  /** `x` is the first element of `list` that is not rejected. */
  ghost predicate FirstOf(list: seq<nat>, x: nat, rejected: set<nat>) {
    exists i | 0 <= i < |list| :: list[i] == x && x !in rejected && forall j | 0 <= j < i :: list[j] in rejected
  }

  ghost function MisalignedSet(list: seq<nat>, order: nat): set<nat> {
    set x | x in list && BuddyTheorems.Misaligned(x, order)
  }

  ghost function BeyondSet(list: seq<nat>, max: nat): set<nat> {
    set x | x in list && BuddyTheorems.Beyond(x, max)
  }

  /** The front of the first block of the first non-empty list at or above `order` was taken. */
  ghost predicate FromFirstList(s0: State, s: State, page: nat, order: nat) {
    exists found | order <= found < MAX_ORDER == |s0.lists| ::
      && FirstListFrom(s0.lists, order, found) && page == s0.lists[found][0]
      && Allocated(s0, s, page, found, order) && s == Carve(s0, page, found, order)
  }

  /** From one state all allocators that take the first fitting block agree on the page and on the whole
      state after, down to the tags left inside the block. */
  lemma AllocatorsAgree(s0: State, s: State, page: nat, r: State, page': nat, order: nat)
    requires FromFirstList(s0, s, page, order) && FromFirstList(s0, r, page', order)
    ensures page == page' && s == r
  {
    var f :| order <= f < MAX_ORDER == |s0.lists| && FirstListFrom(s0.lists, order, f) && page == s0.lists[f][0]
             && s == Carve(s0, page, f, order);
    var g :| order <= g < MAX_ORDER == |s0.lists| && FirstListFrom(s0.lists, order, g) && page' == s0.lists[g][0]
             && r == Carve(s0, page', g, order);
    assert f == g;
  }

  /** Pages as the initialisation leaves them. */
  ghost predicate Fresh(s: State, start: nat, end: nat) {
    && |s.pages| == |s.tile|
    && forall i | start <= i < end && i < |s.tile| ::
         s.tile[i] == Tile(0, Used) && s.pages[i].count == 1 && BuddySystem.Plain(s.pages[i])
  }

  /** The pages from `start` up to `j` became free, and no others. */
  ghost predicate Fed(t0: seq<Tile>, t: seq<Tile>, start: nat, j: nat) {
    && |t| == |t0|
    && forall i | 0 <= i < |t| :: t[i].status == Free <==> t0[i].status == Free || start <= i < j
  }

  /** One page of a boot range was freed. */
  lemma FedOne(t0: seq<Tile>, s0: State, s: State, start: nat, j: nat, end: nat)
    requires Released(s0, s, j, 0) && Fresh(s0, j, end) && start <= j < end && Fed(t0, s0.tile, start, j)
    ensures |s.tile| == |s0.tile| && Fresh(s, j + 1, end) && Fed(t0, s.tile, start, j + 1)
  {
  }

  /** List `found` is the first non-empty one at or above `order`. */
  ghost predicate FirstListFrom(lists: seq<seq<nat>>, order: nat, found: nat) {
    && order <= found < |lists| && lists[found] != []
    && forall k | order <= k < found :: lists[k] == []
  }
}
