/** What the block structure means in terms of free pages alone. */
module BuddyTheorems {
  import opened Sets
  import opened Windows
  import opened BuddyState

  lemma InitialState(s: State)
    requires |s.pages| == |s.tile| && s.freeCount == 0
    requires forall i | 0 <= i < |s.tile| :: s.tile[i] == Tile(0, Used) && s.pages[i].count == 1
    requires |s.lists| == MAX_ORDER && forall k | 0 <= k < MAX_ORDER :: s.lists[k] == []
    ensures Valid(s)
  {
    NothingListed(s.lists, MAX_ORDER);
    assert FreeSet(s.tile) == {};
    forall i | 0 <= i < |s.tile|
      ensures PageOk(s.pages[i], i, s.tile[i])
    {
      assert Head(i, 0);
    }
  }

  lemma {:induction false} NothingListed(lists: seq<seq<nat>>, m: nat)
    requires m <= |lists| && forall k | 0 <= k < |lists| :: lists[k] == []
    ensures ListedPages(lists, m) == 0
  {
    if m > 0 {
      NothingListed(lists, m - 1);
    }
  }

  lemma UsedCount(s: State, page: nat)
    requires Valid(s) && page < |s.tile| && Head(page, s.tile[page].order) && s.tile[page].status == Used
    ensures s.pages[page].count >= 1
  {
    assert PageOk(s.pages[page], page, s.tile[page]);
  }

  lemma CountOnly(s: State, page: nat, count: int)
    requires Valid(s) && page < |s.tile| && Head(page, s.tile[page].order) && s.tile[page].status == Used
    requires count >= 1
    ensures Valid(s.(pages := s.pages[page := s.pages[page].(count := count)]))
  {
    var r := s.(pages := s.pages[page := s.pages[page].(count := count)]);
    forall i | 0 <= i < |r.tile|
      ensures PageOk(r.pages[i], i, r.tile[i])
    {
      assert PageOk(s.pages[i], i, s.tile[i]);
    }
  }

  /** `freePages` looks at no descriptor behind the page map, whatever the number of pages is: the buddy
      of a block that leaves out the last page lies inside. */
  lemma BuddyInside(n: nat, h: nat, k: nat)
    requires Head(h, k) && h + Pow2(k) < n
    ensures BuddyOf(h, k) < n
  {
    XorPow2(h, k);
  }

  /** The window of 2^k pages that holds `h` is wholly free. */
  ghost predicate FreeRun(free: set<nat>, h: nat, k: nat) {
    forall i: nat {:trigger SameWindow(h, i, k)} | SameWindow(h, i, k) :: i in free
  }

  /** Some aligned run of 2^k pages is wholly free, whatever blocks it is made of. */
  ghost predicate FreeRunExists(tile: seq<Tile>, k: nat) {
    k < MAX_ORDER && exists h: nat :: h < |tile| && FreeRun(FreeSet(tile), h, k)
  }

  /** Eager merging at work: a wholly free window that no larger block covers is one block. */
  lemma {:induction false} FreeRunIsOneBlock(tile: seq<Tile>, h: nat, k: nat)
    requires Tiling(tile) && Canonical(tile) && h < |tile| && k <= TOP_ORDER
    requires FreeRun(FreeSet(tile), h, k) && tile[h].order <= k
    ensures tile[h] == Tile(k, Free)
    decreases k
  {
    if tile[h].order == k {
      assert SameWindow(h, h, k);
    } else {
      HalvesFree(tile, h, k - 1);
      FreeRunIsOneBlock(tile, h, k - 1);
      NotBothFree(tile, h, k - 1);
      FreeRunIsOneBlock(tile, BuddyOf(h, k - 1), k - 1);
    }
  }

  lemma NotBothFree(tile: seq<Tile>, h: nat, k: nat)
    requires Canonical(tile) && k < TOP_ORDER && h < |tile| && BuddyOf(h, k) < |tile|
    requires tile[h] == Tile(k, Free)
    ensures tile[BuddyOf(h, k)] != Tile(k, Free)
  {
    assert tile[h].order == k;
    assert tile[BuddyOf(h, tile[h].order)] != tile[h];
  }

  lemma HalvesFree(tile: seq<Tile>, h: nat, k: nat)
    requires Tiling(tile) && h < |tile| && k < TOP_ORDER
    requires FreeRun(FreeSet(tile), h, k + 1) && tile[h].order <= k
    ensures FreeRun(FreeSet(tile), h, k)
    ensures var b := BuddyOf(h, k);
            b < |tile| && FreeRun(FreeSet(tile), b, k) && tile[b].order <= k
  {
    var b := BuddyOf(h, k);
    BuddyWindow(h, k);
    assert SameWindow(h, b, k + 1);
    forall i: nat
      ensures SameWindow(h, i, k) || SameWindow(b, i, k) ==> SameWindow(h, i, k + 1)
    {
      HalvesOfWindow(h, i, k);
    }
    if tile[b].order > k {
      WindowsNest(b, h, k + 1, tile[b].order);
      SameBlock(tile, b);
    }
  }

  /** The block of a free page is the largest wholly free window around it. */
  lemma FreeBlockIsMaximal(tile: seq<Tile>, i: nat, k: nat)
    requires Tiling(tile) && Canonical(tile) && i < |tile| && k <= TOP_ORDER
    ensures tile[i].status == Free ==> (FreeRun(FreeSet(tile), i, k) <==> k <= tile[i].order)
  {
    if tile[i].status == Free {
      var m := tile[i].order;
      if k <= m {
        BlockUniform(tile, i);
        WindowMembers(i, m);
        forall j: nat | SameWindow(i, j, k)
          ensures j in FreeSet(tile)
        {
          WindowsNest(i, j, k, m);
        }
      } else if FreeRun(FreeSet(tile), i, k) {
        FreeRunIsOneBlock(tile, i, k);
      }
    }
  }

  /** The free blocks are a function of the set of free pages: not of the order of calls. */
  lemma FreeBlocksDependOnFreePagesOnly(t1: seq<Tile>, t2: seq<Tile>, i: nat)
    requires Tiling(t1) && Canonical(t1) && Tiling(t2) && Canonical(t2)
    requires |t1| == |t2| && FreeSet(t1) == FreeSet(t2) && i < |t1|
    ensures t1[i].status == Free || t2[i].status == Free ==> t1[i] == t2[i]
  {
    if t1[i].status == Free || t2[i].status == Free {
      assert i in FreeSet(t1) && i in FreeSet(t2);
      FreeBlockIsMaximal(t1, i, t1[i].order);
      FreeBlockIsMaximal(t1, i, t2[i].order);
      FreeBlockIsMaximal(t2, i, t1[i].order);
      FreeBlockIsMaximal(t2, i, t2[i].order);
    }
  }

  /** Two states with the same free pages hold the same blocks on every list. */
  lemma SameFreePagesSameLists(s1: State, s2: State, k: nat)
    requires Valid(s1) && Valid(s2) && |s1.tile| == |s2.tile| && FreeSet(s1.tile) == FreeSet(s2.tile)
    requires k < MAX_ORDER
    ensures s1.freeCount == s2.freeCount
    ensures multiset(s1.lists[k]) == multiset(s2.lists[k])
  {
    forall h: nat
      ensures h in s1.lists[k] <==> h in s2.lists[k]
    {
      assert h in s1.lists[k] <==> FreeHead(s1.tile, h, k);
      assert h in s2.lists[k] <==> FreeHead(s2.tile, h, k);
      if h < |s1.tile| {
        FreeBlocksDependOnFreePagesOnly(s1.tile, s2.tile, h);
      }
    }
    OnceEach(s1.lists[k]);
    OnceEach(s2.lists[k]);
  }

  lemma {:induction false} OnceEach(s: seq<nat>)
    requires NoDup(s)
    ensures forall x :: multiset(s)[x] == if x in s then 1 else 0
  {
    if s != [] {
      var t := s[..|s| - 1];
      OnceEach(t);
      assert s == t + [s[|s| - 1]];
    }
  }

  /** `freePages(allocPages(k), k)` restores every list, up to its order, and the counter. */
  lemma FreeUndoesAlloc(s0: State, s1: State, s2: State, page: nat, found: nat, order: nat, k: nat)
    requires Valid(s0) && Valid(s1) && Valid(s2)
    requires Allocated(s0, s1, page, found, order) && Released(s1, s2, page, order)
    requires k < MAX_ORDER
    ensures FreeSet(s2.tile) == FreeSet(s0.tile)
    ensures multiset(s2.lists[k]) == multiset(s0.lists[k]) && s2.freeCount == s0.freeCount
  {
    forall i: nat
      ensures i in FreeSet(s2.tile) <==> i in FreeSet(s0.tile)
    {
      if i < |s1.tile| {
        assert s1.tile[i].status == Free <==> i in FreeSet(s1.tile);
      }
    }
    SameFreePagesSameLists(s2, s0, k);
  }

  // ----- When allocation succeeds -----

  lemma ListedMeansFreeRun(s: State, found: nat, h: nat, order: nat)
    requires Valid(s) && order <= found < MAX_ORDER && h in s.lists[found]
    ensures FreeHead(s.tile, h, found) && FreeRun(FreeSet(s.tile), h, order)
    ensures FreeRunExists(s.tile, order)
  {
    assert FreeHead(s.tile, h, found);
    FreeBlockIsMaximal(s.tile, h, order);
  }

  lemma EmptyListsMeanNoFreeRun(s: State, order: nat)
    requires Valid(s) && forall k | order <= k < MAX_ORDER :: s.lists[k] == []
    ensures !FreeRunExists(s.tile, order)
  {
    if FreeRunExists(s.tile, order) {
      var h: nat :| h < |s.tile| && FreeRun(FreeSet(s.tile), h, order);
      var head := HeadOfFreeRun(s, h, order);
    }
  }

  /** A wholly free run lies in one listed block, which heads at or before it. */
  lemma HeadOfFreeRun(s: State, h: nat, order: nat) returns (head: nat)
    requires Valid(s) && h < |s.tile| && order < MAX_ORDER && FreeRun(FreeSet(s.tile), h, order)
    ensures order <= s.tile[h].order < MAX_ORDER && head in s.lists[s.tile[h].order]
    ensures head == Base(h, s.tile[h].order) && head <= h
  {
    assert SameWindow(h, h, order) && s.tile[h].status == Free;
    FreeBlockIsMaximal(s.tile, h, order);
    var k := s.tile[h].order;
    head := Base(h, k);
    BaseInWindow(h, k);
    WindowBounds(h, k);
    SameBlock(s.tile, h);
    assert FreeHead(s.tile, head, k);
  }

  // ----- Addresses -----

  const PAGE_SHIFT: nat := 12
  const PHYSICS_PAGE_SIZE: nat := 0x1000
  const PAGE_OFFSET: nat := 0x8000000000

  /** `getPhysicsPageAddress` and its physical address. */
  function PageAddress(page: nat): nat {
    PAGE_OFFSET + PhysicalAddress(page)
  }

  function PhysicalAddress(page: nat): nat {
    page * PHYSICS_PAGE_SIZE
  }

  /** The test in `allocAlignedPages`: `(address & ((PHYSICS_PAGE_SIZE << order) - 1)) != 0`. */
  predicate Misaligned(page: nat, order: nat) {
    And(PageAddress(page), Shl(PHYSICS_PAGE_SIZE, order) - 1) != 0
  }

  /** The test in `allocDMAPages`: `(address & ((1ul << max) - 1)) != address`. */
  predicate Beyond(page: nat, max: nat) {
    And(PhysicalAddress(page), Pow2(max) - 1) != PhysicalAddress(page)
  }

  lemma ShiftIsTimes(page: nat)
    ensures PhysicalAddress(page) == Shl(page, PAGE_SHIFT)
  {
    ShlIsTimes(page, PAGE_SHIFT);
    assert Pow2(PAGE_SHIFT) == PHYSICS_PAGE_SIZE;
  }

  lemma OffsetIsPower()
    ensures PAGE_OFFSET == Pow2(39)
  {
    assert Pow2(13) == 0x2000;
    ShlOfPow2(13, 13);
    ShlIsTimes(0x2000, 13);
    ShlOfPow2(26, 13);
    ShlIsTimes(Pow2(26), 13);
  }

  lemma MisalignedIff(page: nat, order: nat)
    requires order < MAX_ORDER
    ensures Misaligned(page, order) <==> !Head(page, order)
  {
    var m := PAGE_SHIFT + order;
    ShiftIsTimes(page);
    ShlCommutes(order);
    MaskLow(PageAddress(page), m);
    OffsetIsPower();
    Pow2IsHead(m, 39);
    BaseOfSum(PhysicalAddress(page), PAGE_OFFSET, m);
    HeadOfShifted(page, PAGE_SHIFT, order);
  }

  lemma {:induction false} ShlCommutes(order: nat)
    ensures Shl(PHYSICS_PAGE_SIZE, order) == Pow2(PAGE_SHIFT + order)
  {
    if order > 0 {
      ShlCommutes(order - 1);
    }
  }

  lemma BeyondIff(page: nat, max: nat)
    ensures Beyond(page, max) <==> page * 4096 >= Pow2(max)
  {
    MaskLow(PhysicalAddress(page), max);
    BaseZero(PhysicalAddress(page), max);
  }

  /** The block of 2^order pages at `page` ends at or below address 2^max. */
  ghost predicate WhollyBelow(page: nat, order: nat, max: nat) {
    (page + Pow2(order)) * 4096 <= Pow2(max)
  }

  /** Testing the first address decides where the whole block lies exactly when the limit is
      at least the block's size: below that, block 0 passes the test and sticks out. */
  lemma BelowLimitIff(page: nat, order: nat, max: nat)
    requires Head(page, order) && page * 4096 < Pow2(max)
    ensures WhollyBelow(page, order, max) <==> 12 + order <= max
  {
    ShiftIsTimes(page);
    ShiftIsTimes(page + Pow2(order));
    if PAGE_SHIFT + order <= max {
      FitsBelow(page, order, PAGE_SHIFT, max - PAGE_SHIFT);
    } else {
      SticksOut(page + Pow2(order), order, PAGE_SHIFT, max);
    }
  }

  lemma FitsBelow(page: nat, order: nat, shift: nat, m: nat)
    requires Head(page, order) && Shl(page, shift) < Pow2(shift + m) && order <= m
    ensures Shl(page + Pow2(order), shift) <= Pow2(shift + m)
  {
    ShlBelow(page, shift, m);
    Pow2IsHead(order, m);
    WindowInside(page, Pow2(m), order, order);
    ShlBelow(page + Pow2(order), shift, m);
  }

  lemma SticksOut(end: nat, order: nat, shift: nat, max: nat)
    requires Pow2(order) <= end && max < shift + order
    ensures Pow2(max) < Shl(end, shift)
  {
    ShlMonotone(Pow2(order), end, shift);
    ShlOfPow2(order, shift);
    Pow2Monotone(max, shift + order);
  }

  /** A free run that begins below the limit lies in a listed block that begins below it. */
  lemma EarlierHeadPasses(page: nat, head: nat, max: nat)
    requires head <= page && !Beyond(page, max)
    ensures !Beyond(head, max)
  {
    BeyondIff(page, max);
    BeyondIff(head, max);
  }

  /** The first aligned block of a list is its first block: nothing on the list is misaligned. */
  lemma NoneMisaligned(s: State, k: nat, order: nat, i: nat)
    requires Valid(s) && order <= k < MAX_ORDER && i < |s.lists[k]|
    ensures !Misaligned(s.lists[k][i], order)
  {
    var h := s.lists[k][i];
    assert h in s.lists[k] && FreeHead(s.tile, h, k);
    HeadOfSmaller(h, order, k);
    MisalignedIff(h, order);
  }

  /** Some aligned, wholly free run of 2^order pages begins below 2^max. */
  ghost predicate FreeRunBelow(tile: seq<Tile>, order: nat, max: nat) {
    order < MAX_ORDER &&
    exists h: nat :: h < |tile| && FreeRun(FreeSet(tile), h, order) && Head(h, order) && h * 4096 < Pow2(max)
  }

  lemma ListedBelow(s: State, found: nat, h: nat, order: nat, max: nat)
    requires Valid(s) && order <= found < MAX_ORDER && h in s.lists[found] && !Beyond(h, max)
    ensures FreeRunBelow(s.tile, order, max)
    ensures 12 + order <= max ==> WhollyBelow(h, order, max)
  {
    ListedMeansFreeRun(s, found, h, order);
    HeadOfSmaller(h, order, found);
    BeyondIff(h, max);
    BelowLimitIff(h, order, max);
  }

  lemma NoneListedBelow(s: State, order: nat, max: nat)
    requires Valid(s)
    requires forall k, x | order <= k < MAX_ORDER && x in s.lists[k] :: Beyond(x, max)
    ensures !FreeRunBelow(s.tile, order, max)
  {
    if FreeRunBelow(s.tile, order, max) {
      var h: nat :| h < |s.tile| && FreeRun(FreeSet(s.tile), h, order) && Head(h, order) && h * 4096 < Pow2(max);
      var head := HeadOfFreeRun(s, h, order);
      BeyondIff(h, max);
      EarlierHeadPasses(h, head, max);
    }
  }
}
