/** The state of the physical page allocator and what every operation on it keeps.

    Every page belongs to exactly one block: an aligned run of 2^order pages that is free
    or in use. The descriptors only record this at block heads, and blocks that were merged
    away leave their old tags behind; `Core` says what can be relied on all the same. */
module BuddyState {
  import opened Sets
  import opened Windows

  const MAX_ORDER: nat := 11
  const TOP_ORDER: nat := MAX_ORDER - 1

  /** `struct PhysicsPage`. `linkPrev` and `linkNext` stand for the words of `list` while the
      page is in use: the slab allocator keeps the page's slab and cache there. */
  datatype Page = Page(count: int, reserved: bool, data: bool, slab: bool, pageCache: bool,
                       value: nat, linkPrev: int, linkNext: int)

  /** `pageIsBuddy`: all the allocator looks at when it decides to merge. */
  predicate PageIsBuddy(p: Page, order: nat) {
    p.count == 0 && !p.reserved && p.data && p.value == order
  }

  /** What a block is: on a free list, given out, or being put back by `freePages`. */
  datatype Status = Free | Used | InHand

  /** The block a page belongs to: its order and status; its head is `Base(page, order)`. */
  datatype Tile = Tile(order: nat, status: Status)

  datatype State = State(pages: seq<Page>, lists: seq<seq<nat>>, freeCount: int, tile: seq<Tile>)

  /** Pages are grouped into aligned blocks inside the page map: all pages of a block agree on it.
      The last page is never given to the allocator, whatever the number of pages is. */
  ghost predicate Tiling(tile: seq<Tile>) {
    && (forall i | 0 <= i < |tile| :: tile[i].order <= TOP_ORDER && Fits(|tile|, i, tile[i].order))
    && (|tile| > 0 ==> tile[|tile| - 1] == Tile(0, Used))
    && (forall i, j {:trigger SameWindow(i, j, tile[i].order)} |
          0 <= i < |tile| && 0 <= j < |tile| && SameWindow(i, j, tile[i].order) :: tile[j] == tile[i])
  }

  /** What the descriptor of page `i` tells about its block: everything at the head,
      a zero count elsewhere. `data` and `value` are arbitrary off the heads of free blocks. */
  predicate PageOk(p: Page, i: nat, t: Tile) {
    && (Head(i, t.order) ==>
          match t.status
          case Free => p.count == 0 && p.data && p.value == t.order && !p.reserved && !p.pageCache
          case Used => p.count >= 1
          case InHand => p.count == 0 && !p.reserved && !p.pageCache)
    && (!Head(i, t.order) ==> p.count == 0 && !p.reserved && !p.pageCache)
  }

  ghost predicate PagesOk(pages: seq<Page>, tile: seq<Tile>) {
    && |pages| == |tile|
    && forall i {:trigger PageOk(pages[i], i, tile[i])} | 0 <= i < |tile| :: PageOk(pages[i], i, tile[i])
  }

  predicate FreeHead(tile: seq<Tile>, h: nat, k: nat) {
    h < |tile| && Head(h, k) && tile[h] == Tile(k, Free)
  }

  /** List `k` holds exactly the heads of the free blocks of order `k`, once each. */
  ghost predicate ListsOk(lists: seq<seq<nat>>, tile: seq<Tile>) {
    && |lists| == MAX_ORDER
    && (forall k | 0 <= k < MAX_ORDER :: NoDup(lists[k]))
    && (forall k, h {:trigger h in lists[k]} {:trigger FreeHead(tile, h, k)} |
          0 <= k < MAX_ORDER :: h in lists[k] <==> FreeHead(tile, h, k))
  }

  /** No two free buddies of one order, below the top order. */
  ghost predicate Canonical(tile: seq<Tile>) {
    forall i {:trigger tile[BuddyOf(i, tile[i].order)]} |
      0 <= i < |tile| && tile[i].status == Free && tile[i].order < TOP_ORDER && 0 <= BuddyOf(i, tile[i].order) < |tile| ::
      tile[BuddyOf(i, tile[i].order)] != tile[i]
  }

  /** Sum of 2^j over the blocks on the lists below order `k`. */
  function ListedPages(lists: seq<seq<nat>>, k: nat): nat
    requires k <= |lists|
  {
    if k == 0 then 0 else ListedPages(lists, k - 1) + |lists[k - 1]| * Pow2(k - 1)
  }

  function ListedTotal(lists: seq<seq<nat>>): nat {
    ListedPages(lists, |lists|)
  }

  ghost function FreeSet(tile: seq<Tile>): set<nat> {
    set i | 0 <= i < |tile| && tile[i].status == Free
  }

  /** The pages on the lists are the free pages. */
  ghost predicate CountsOk(lists: seq<seq<nat>>, tile: seq<Tile>) {
    ListedTotal(lists) == |FreeSet(tile)|
  }

  ghost predicate Core(s: State) {
    && Tiling(s.tile)
    && PagesOk(s.pages, s.tile)
    && ListsOk(s.lists, s.tile)
    && Canonical(s.tile)
    && CountsOk(s.lists, s.tile)
  }

  /** Between calls: nothing is in hand, and the free page counter is exact. */
  ghost predicate Valid(s: State) {
    && Core(s)
    && (forall i | 0 <= i < |s.tile| :: s.tile[i].status != InHand)
    && s.freeCount == |FreeSet(s.tile)|
  }

  predicate BlockAt(tile: seq<Tile>, h: nat, t: Tile) {
    h < |tile| && Head(h, t.order) && tile[h] == t
  }

  /** The block of order `k` at `h` is the only one in hand. */
  ghost predicate Holding(s: State, h: nat, k: nat) {
    && Core(s)
    && BlockAt(s.tile, h, Tile(k, InHand))
    && (forall i | 0 <= i < |s.tile| && s.tile[i].status == InHand :: SameWindow(h, i, k))
  }

  // ----- Repainting the tiling -----

  lemma SameBlock(tile: seq<Tile>, h: nat)
    requires Tiling(tile) && h < |tile|
    ensures forall j | 0 <= j < |tile| && SameWindow(h, j, tile[h].order) :: tile[j] == tile[h]
  {
    forall j | 0 <= j < |tile| && SameWindow(h, j, tile[h].order)
      ensures tile[j] == tile[h]
    {
      assert SameWindow(h, j, tile[h].order);
    }
  }

  function SetWindow(tile: seq<Tile>, h: nat, k: nat, t: Tile): (r: seq<Tile>)
    ensures |r| == |tile|
    ensures forall i | 0 <= i < |tile| :: r[i] == if SameWindow(h, i, k) then t else tile[i]
  {
    seq(|tile|, i requires 0 <= i < |tile| => if SameWindow(h, i, k) then t else tile[i])
  }

  /** A block other than that of the last page does not contain the last page. */
  lemma LastApart(tile: seq<Tile>, h: nat)
    requires Tiling(tile) && h + 1 < |tile|
    ensures !SameWindow(h, |tile| - 1, tile[h].order)
  {
    SameBlock(tile, h);
  }

  /** Blocks never straddle: a block with a page in the window of 2^k pages at `h`
      either contains the window or lies inside it. */
  lemma SetWindowTiling(tile: seq<Tile>, h: nat, k: nat, status: Status)
    requires Tiling(tile) && h < |tile| && k <= TOP_ORDER && Fits(|tile|, h, k) && !SameWindow(h, |tile| - 1, k)
    requires forall j | 0 <= j < |tile| && SameWindow(h, j, k) :: tile[j].order <= k
    ensures Tiling(SetWindow(tile, h, k, Tile(k, status)))
  {
    var r := SetWindow(tile, h, k, Tile(k, status));
    forall i | 0 <= i < |r|
      ensures Fits(|r|, i, r[i].order)
    {
      SameWindowIffInterval(h, i, k);
    }
    forall i, j | 0 <= i < |r| && 0 <= j < |r| && SameWindow(i, j, r[i].order)
      ensures r[j] == r[i]
    {
      if !SameWindow(h, i, k) {
        assert tile[j] == tile[i];
        if SameWindow(h, j, k) {
          WindowsNest(i, j, tile[i].order, k);
          assert false;
        }
      }
    }
  }

  function Halve(tile: seq<Tile>, h: nat, k: nat, lower: Status, upper: Status): (r: seq<Tile>)
    ensures |r| == |tile|
  {
    SetWindow(SetWindow(tile, h, k + 1, Tile(k, upper)), h, k, Tile(k, lower))
  }

  lemma HalveTiling(tile: seq<Tile>, h: nat, k: nat, lower: Status, upper: Status)
    requires Tiling(tile) && h < |tile| && k < TOP_ORDER
    requires tile[h].order == k + 1 && h + 1 < |tile|
    ensures Tiling(Halve(tile, h, k, lower, upper))
  {
    var r := Halve(tile, h, k, lower, upper);
    LastApart(tile, h);
    HalvesOfWindow(h, |tile| - 1, k);
    HalvesFit(h, k, |tile|);
    forall i | 0 <= i < |r|
      ensures Fits(|r|, i, r[i].order)
    {
      HalvesOfWindow(h, i, k);
      SameWindowIffInterval(h, i, k);
      SameWindowIffInterval(BuddyOf(h, k), i, k);
    }
    forall i, j | 0 <= i < |r| && 0 <= j < |r| && SameWindow(i, j, r[i].order)
      ensures r[j] == r[i]
    {
      HalvesOfWindow(h, i, k);
      HalvesOfWindow(h, j, k);
      if !SameWindow(h, i, k + 1) {
        assert tile[j] == tile[i];
        if SameWindow(h, j, k + 1) {
          SameBlock(tile, h);
          assert false;
        }
      }
    }
  }

  // ----- The block decision -----

  /** The tags decide correctly: asked about the buddy of a block that is not free,
      `pageIsBuddy` answers yes exactly when that buddy heads a free block of the same
      order, whatever stale tags lie inside merged blocks. */
  lemma PageIsBuddyExact(s: State, h: nat, k: nat)
    requires Core(s) && h < |s.tile| && Head(h, k) && s.tile[h].order == k < TOP_ORDER
    requires s.tile[h].status != Free && h + 1 < |s.tile|
    requires forall i | 0 <= i < |s.tile| && s.tile[i].status == InHand :: SameWindow(h, i, k)
    ensures BuddyOf(h, k) < |s.tile|
    ensures PageIsBuddy(s.pages[BuddyOf(h, k)], k) <==> FreeHead(s.tile, BuddyOf(h, k), k)
  {
    var b := BuddyOf(h, k);
    BuddyOfHead(h, k);
    BuddyWindow(h, k);
    LastApart(s.tile, h);
    XorPow2(h, k);
    SameWindowIffInterval(h, |s.tile| - 1, k);
    assert Fits(|s.tile|, h, k);
    var t := s.tile[b];
    if t.order > k {
      WindowsNest(b, h, k + 1, t.order);
      SameBlock(s.tile, b);
      assert false;
    }
    HeadOfSmaller(b, t.order, k);
    assert PageOk(s.pages[b], b, t);
  }

  // ----- Counting -----

  lemma {:induction false} ListedPagesUpdate(lists: seq<seq<nat>>, k: nat, l: seq<nat>, m: nat)
    requires k < |lists| && m <= |lists|
    requires |l| == |lists[k]| + 1
    ensures ListedPages(lists[k := l], m) == ListedPages(lists, m) + (if k < m then Pow2(k) else 0)
  {
    if m > 0 {
      ListedPagesUpdate(lists, k, l, m - 1);
      if m - 1 == k {
        var p, n := Pow2(k), |lists[k]|;
        assert (n + 1) * p == n * p + p;
      }
    }
  }

  lemma ListedAfterAppend(lists: seq<seq<nat>>, k: nat, x: nat)
    requires k < |lists|
    ensures ListedTotal(lists[k := lists[k] + [x]]) == ListedTotal(lists) + Pow2(k)
  {
    ListedPagesUpdate(lists, k, lists[k] + [x], |lists|);
  }

  lemma ListedAfterRemove(lists: seq<seq<nat>>, k: nat, x: nat)
    requires k < |lists| && x in lists[k]
    ensures ListedTotal(lists[k := Without(lists[k], x)]) == ListedTotal(lists) - Pow2(k)
  {
    var r := lists[k := Without(lists[k], x)];
    ListedPagesUpdate(r, k, lists[k], |lists|);
    assert r[k := lists[k]] == lists;
  }

  lemma CountsAfterAppend(lists: seq<seq<nat>>, tile: seq<Tile>, tile': seq<Tile>, k: nat, x: nat, w: set<nat>)
    requires k < |lists| && CountsOk(lists, tile)
    requires FreeSet(tile') == FreeSet(tile) + w && w !! FreeSet(tile) && |w| == Pow2(k)
    ensures CountsOk(lists[k := lists[k] + [x]], tile')
  {
    ListedAfterAppend(lists, k, x);
  }

  lemma CountsAfterRemove(lists: seq<seq<nat>>, tile: seq<Tile>, tile': seq<Tile>, k: nat, x: nat, w: set<nat>)
    requires k < |lists| && CountsOk(lists, tile) && x in lists[k]
    requires FreeSet(tile') == FreeSet(tile) - w && w <= FreeSet(tile) && |w| == Pow2(k)
    ensures CountsOk(lists[k := Without(lists[k], x)], tile')
  {
    ListedAfterRemove(lists, k, x);
  }

  lemma FreeSetAfter(tile: seq<Tile>, h: nat, k: nat, t: Tile)
    requires Fits(|tile|, h, k) && h < |tile|
    ensures t.status == Free ==> FreeSet(SetWindow(tile, h, k, t)) == FreeSet(tile) + Window(h, k)
    ensures t.status != Free ==> FreeSet(SetWindow(tile, h, k, t)) == FreeSet(tile) - Window(h, k)
  {
    WindowMembers(h, k);
    FitsContains(|tile|, h, k);
  }

  /** All pages of a block share its status. */
  lemma BlockUniform(tile: seq<Tile>, h: nat)
    requires Tiling(tile) && h < |tile|
    ensures tile[h].status == Free ==> Window(h, tile[h].order) <= FreeSet(tile)
    ensures tile[h].status != Free ==> Window(h, tile[h].order) !! FreeSet(tile)
  {
    var k := tile[h].order;
    FitsContains(|tile|, h, k);
    WindowMembers(h, k);
    SameBlock(tile, h);
  }

  // ----- The steps of the operations -----

  /** `freePages` takes the last reference away (src/memory/buddy.c:89-91). */
  function Grasp(s: State, h: nat): State
    requires h < |s.tile| && |s.pages| == |s.tile|
  {
    var k := s.tile[h].order;
    s.(pages := s.pages[h := s.pages[h].(count := 0)],
       tile := SetWindow(s.tile, h, k, Tile(k, InHand)),
       freeCount := s.freeCount + Pow2(k))
  }

  lemma GraspKeepsCore(s: State, h: nat, k: nat)
    requires Valid(s) && BlockAt(s.tile, h, Tile(k, Used)) && !s.pages[h].pageCache && !s.pages[h].reserved
    requires h + 1 < |s.tile|
    ensures Holding(Grasp(s, h), h, k)
  {
    var r := Grasp(s, h);
    GraspTiles(s.tile, h, k);
    PagesAfterPaint(s.pages, r.pages, s.tile, h, k, Tile(k, InHand));
    GraspLists(s, h, k);
  }

  lemma GraspTiles(tile: seq<Tile>, h: nat, k: nat)
    requires Tiling(tile) && BlockAt(tile, h, Tile(k, Used)) && h + 1 < |tile|
    ensures Tiling(SetWindow(tile, h, k, Tile(k, InHand)))
    ensures FreeSet(SetWindow(tile, h, k, Tile(k, InHand))) == FreeSet(tile)
  {
    SameBlock(tile, h);
    LastApart(tile, h);
    SetWindowTiling(tile, h, k, InHand);
    BlockUniform(tile, h);
    FreeSetAfter(tile, h, k, Tile(k, InHand));
  }

  lemma GraspLists(s: State, h: nat, k: nat)
    requires Valid(s) && BlockAt(s.tile, h, Tile(k, Used))
    ensures ListsOk(s.lists, Grasp(s, h).tile)
  {
    var r := Grasp(s, h);
    SameBlock(s.tile, h);
    OneHead(h, k);
    forall j, x: nat | 0 <= j < MAX_ORDER
      ensures x in r.lists[j] <==> FreeHead(r.tile, x, j)
    {
      assert x in s.lists[j] <==> FreeHead(s.tile, x, j);
    }
  }

  /** Repainting one block without changing its order, when only its head's descriptor changed. */
  lemma PagesAfterPaint(pages: seq<Page>, pages': seq<Page>, tile: seq<Tile>, h: nat, k: nat, t: Tile)
    requires Tiling(tile) && PagesOk(pages, tile) && h < |tile| && Head(h, k) && tile[h].order == k
    requires |pages'| == |pages| && t.order == k && PageOk(pages'[h], h, t)
    requires forall i | 0 <= i < |pages| && i != h :: pages'[i] == pages[i]
    ensures PagesOk(pages', SetWindow(tile, h, k, t))
  {
    var r := SetWindow(tile, h, k, t);
    SameBlock(tile, h);
    OneHead(h, k);
    forall i | 0 <= i < |r|
      ensures PageOk(pages'[i], i, r[i])
    {
      assert PageOk(pages[i], i, tile[i]);
    }
  }

  /** One turn of the merging loop (src/memory/buddy.c:99-104): the flags of the page given to
      `freePages` are cleared, the buddy leaves its list, the block in hand doubles. */
  function Merge(s: State, h: nat, k: nat, page: nat): State
    requires page < |s.pages| && k < |s.lists| && BuddyOf(h, k) in s.lists[k]
  {
    var p := s.pages[page];
    s.(pages := s.pages[page := p.(reserved := false, data := false, slab := false, pageCache := false, value := 0)],
       lists := s.lists[k := Without(s.lists[k], BuddyOf(h, k))],
       tile := SetWindow(s.tile, h, k + 1, Tile(k + 1, InHand)))
  }

  lemma MergeKeepsHolding(s: State, h: nat, k: nat, page: nat)
    requires Holding(s, h, k) && k < TOP_ORDER && FreeHead(s.tile, BuddyOf(h, k), k)
    requires page < |s.tile| && SameWindow(h, page, k)
    ensures BuddyOf(h, k) in s.lists[k]
    ensures Holding(Merge(s, h, k, page), And(h, BuddyOf(h, k)), k + 1)
  {
    var b := BuddyOf(h, k);
    assert b in s.lists[k];
    var r := Merge(s, h, k, page);
    MergeTiles(s, h, k);
    MergePages(s, h, k, page);
    MergeLists(s, h, k, page);
    MergeFreeSet(s, h, k);
    CountsAfterRemove(s.lists, s.tile, r.tile, k, b, Window(b, k));
    MergeCanonical(s, h, k);
    MergeHand(s, h, k);
  }

  lemma MergeCanonical(s: State, h: nat, k: nat)
    requires Canonical(s.tile)
    ensures Canonical(SetWindow(s.tile, h, k + 1, Tile(k + 1, InHand)))
  {
  }

  lemma MergeTiles(s: State, h: nat, k: nat)
    requires Holding(s, h, k) && k < TOP_ORDER && FreeHead(s.tile, BuddyOf(h, k), k)
    ensures Tiling(SetWindow(s.tile, h, k + 1, Tile(k + 1, InHand)))
    ensures forall j | 0 <= j < |s.tile| && SameWindow(h, j, k + 1) ::
              s.tile[j] == s.tile[h] || s.tile[j] == s.tile[BuddyOf(h, k)]
  {
    var b := BuddyOf(h, k);
    SameBlock(s.tile, h);
    SameBlock(s.tile, b);
    forall j | 0 <= j < |s.tile| && SameWindow(h, j, k + 1)
      ensures s.tile[j] == s.tile[h] || s.tile[j] == s.tile[b]
    {
      HalvesOfWindow(h, j, k);
    }
    PairFits(h, k, |s.tile|);
    SetWindowTiling(s.tile, h, k + 1, InHand);
  }

  lemma MergeFreeSet(s: State, h: nat, k: nat)
    requires Holding(s, h, k) && k < TOP_ORDER && FreeHead(s.tile, BuddyOf(h, k), k)
    ensures FreeSet(SetWindow(s.tile, h, k + 1, Tile(k + 1, InHand))) == FreeSet(s.tile) - Window(BuddyOf(h, k), k)
    ensures Window(BuddyOf(h, k), k) <= FreeSet(s.tile)
  {
    PairFits(h, k, |s.tile|);
    FreeSetAfter(s.tile, h, k + 1, Tile(k + 1, InHand));
    BlockUniform(s.tile, h);
    BlockUniform(s.tile, BuddyOf(h, k));
    WindowHalves(h, k);
    LowerIdle(FreeSet(s.tile), Window(h, k), Window(BuddyOf(h, k), k), Window(h, k + 1));
  }

  lemma LowerIdle(f: set<nat>, lower: set<nat>, upper: set<nat>, whole: set<nat>)
    requires whole == lower + upper && lower !! upper
    ensures lower !! f ==> f - whole == f - upper
    ensures whole !! f ==> f + whole - lower == f + upper && upper !! f
  {
  }

  lemma MergeHand(s: State, h: nat, k: nat)
    requires Holding(s, h, k) && k < TOP_ORDER && BuddyOf(h, k) < |s.tile|
    ensures var r := SetWindow(s.tile, h, k + 1, Tile(k + 1, InHand));
            var low := And(h, BuddyOf(h, k));
            && BlockAt(r, low, Tile(k + 1, InHand))
            && forall i | 0 <= i < |r| && r[i].status == InHand :: SameWindow(low, i, k + 1)
  {
    BuddyOfHead(h, k);
    BuddyWindow(h, k);
    var r := SetWindow(s.tile, h, k + 1, Tile(k + 1, InHand));
    forall i | 0 <= i < |r| && r[i].status == InHand
      ensures SameWindow(h, i, k + 1)
    {
      if s.tile[i].status == InHand {
        WindowsNest(h, i, k, k + 1);
      }
    }
  }

  lemma MergePages(s: State, h: nat, k: nat, page: nat)
    requires Holding(s, h, k) && k < TOP_ORDER && FreeHead(s.tile, BuddyOf(h, k), k)
    requires page < |s.tile| && SameWindow(h, page, k)
    requires BuddyOf(h, k) in s.lists[k]
    ensures var r := Merge(s, h, k, page); PagesOk(r.pages, r.tile)
  {
    var b := BuddyOf(h, k);
    BuddyOfHead(h, k);
    var r := Merge(s, h, k, page);
    SameBlock(s.tile, h);
    OneHead(And(h, b), k + 1);
    SameBlock(s.tile, b);
    forall i | 0 <= i < |r.tile|
      ensures PageOk(r.pages[i], i, r.tile[i])
    {
      assert PageOk(s.pages[i], i, s.tile[i]);
      HalvesOfWindow(h, i, k);
      HalvesOfWindow(h, page, k);
    }
  }

  lemma MergeLists(s: State, h: nat, k: nat, page: nat)
    requires Holding(s, h, k) && k < TOP_ORDER && FreeHead(s.tile, BuddyOf(h, k), k)
    requires page < |s.tile|
    requires BuddyOf(h, k) in s.lists[k]
    ensures var r := Merge(s, h, k, page); ListsOk(r.lists, r.tile)
  {
    var b := BuddyOf(h, k);
    BuddyOfHead(h, k);
    var r := Merge(s, h, k, page);
    WithoutMembers(s.lists[k], b);
    SameBlock(s.tile, h);
    OneHead(b, k);
    SameBlock(s.tile, b);
    forall j, x: nat | 0 <= j < MAX_ORDER
      ensures x in r.lists[j] <==> FreeHead(r.tile, x, j)
    {
      assert x in s.lists[j] <==> FreeHead(s.tile, x, j);
      HalvesOfWindow(h, x, k);
    }
  }

  /** The block in hand goes to the tail of its list (src/memory/buddy.c:107-111). */
  function Release(s: State, h: nat, k: nat): State
    requires h < |s.pages| && k < |s.lists|
  {
    s.(pages := s.pages[h := s.pages[h].(data := true, value := k, count := 0)],
       lists := s.lists[k := s.lists[k] + [h]],
       tile := SetWindow(s.tile, h, k, Tile(k, Free)))
  }

  lemma ReleaseKeepsCore(s: State, h: nat, k: nat)
    requires Holding(s, h, k)
    requires k < TOP_ORDER ==> BuddyOf(h, k) < |s.tile| && !FreeHead(s.tile, BuddyOf(h, k), k)
    ensures Core(Release(s, h, k))
    ensures forall i | 0 <= i < |s.tile| :: Release(s, h, k).tile[i].status != InHand
  {
    var r := Release(s, h, k);
    assert PageOk(s.pages[h], h, s.tile[h]);
    SameBlock(s.tile, h);
    SetWindowTiling(s.tile, h, k, Free);
    PagesAfterPaint(s.pages, r.pages, s.tile, h, k, Tile(k, Free));
    ReleaseLists(s, h, k);
    ReleaseFreeSet(s.tile, h, k);
    CountsAfterAppend(s.lists, s.tile, r.tile, k, h, Window(h, k));
    ReleaseCanonical(s, h, k);
  }

  lemma ReleaseFreeSet(tile: seq<Tile>, h: nat, k: nat)
    requires Tiling(tile) && BlockAt(tile, h, Tile(k, InHand))
    ensures FreeSet(SetWindow(tile, h, k, Tile(k, Free))) == FreeSet(tile) + Window(h, k)
    ensures Window(h, k) !! FreeSet(tile)
  {
    FreeSetAfter(tile, h, k, Tile(k, Free));
    BlockUniform(tile, h);
  }

  lemma ReleaseLists(s: State, h: nat, k: nat)
    requires Holding(s, h, k)
    ensures ListsOk(Release(s, h, k).lists, Release(s, h, k).tile)
  {
    var r := Release(s, h, k);
    SameBlock(s.tile, h);
    OneHead(h, k);
    forall x: nat, j | x != h || j != k
      ensures FreeHead(r.tile, x, j) <==> FreeHead(s.tile, x, j)
    {
    }
    AppendKeepsLists(s.lists, s.tile, r.tile, h, k);
  }

  lemma ReleaseCanonical(s: State, h: nat, k: nat)
    requires Holding(s, h, k)
    requires k < TOP_ORDER ==> BuddyOf(h, k) < |s.tile| && !FreeHead(s.tile, BuddyOf(h, k), k)
    ensures Canonical(Release(s, h, k).tile)
  {
    var r := Release(s, h, k);
    forall i | 0 <= i < |r.tile| && r.tile[i].status == Free && r.tile[i].order < TOP_ORDER
               && BuddyOf(i, r.tile[i].order) < |r.tile|
      ensures r.tile[BuddyOf(i, r.tile[i].order)] != r.tile[i]
    {
      BuddyOfFree(s, r, h, k, i);
    }
  }

  lemma BuddyOfFree(s: State, r: State, h: nat, k: nat, i: nat)
    requires Holding(s, h, k) && r.tile == SetWindow(s.tile, h, k, Tile(k, Free))
    requires k < TOP_ORDER ==> BuddyOf(h, k) < |s.tile| && !FreeHead(s.tile, BuddyOf(h, k), k)
    requires i < |r.tile| && r.tile[i].status == Free && r.tile[i].order < TOP_ORDER
    requires BuddyOf(i, r.tile[i].order) < |r.tile|
    ensures r.tile[BuddyOf(i, r.tile[i].order)] != r.tile[i]
  {
    var m := r.tile[i].order;
    var j := BuddyOf(i, m);
    BuddyWindow(i, m);
    if r.tile[j] == r.tile[i] {
      // one of the two lies in the window just released
      if SameWindow(h, i, k) {
        FreeBuddyHead(s.tile, h, k, j);
      } else if SameWindow(h, j, k) {
        FreeBuddyHead(s.tile, h, k, i);
      }
    }
  }

  /** If page `j` of the buddy's window is in a free block of order `k`, the buddy heads it. */
  lemma FreeBuddyHead(tile: seq<Tile>, h: nat, k: nat, j: nat)
    requires Tiling(tile) && h < |tile| && Head(h, k) && k < TOP_ORDER && BuddyOf(h, k) < |tile|
    requires j < |tile| && !SameWindow(h, j, k) && SameWindow(h, BuddyOf(j, k), k)
    ensures tile[j] == Tile(k, Free) ==> FreeHead(tile, BuddyOf(h, k), k)
  {
    BuddyOfHead(h, k);
    BuddyWindow(j, k);
    WindowsNest(h, BuddyOf(j, k), k, k + 1);
    HalvesOfWindow(h, j, k);
    if tile[j] == Tile(k, Free) {
      SameBlock(tile, j);
    }
  }

  lemma AppendKeepsLists(lists: seq<seq<nat>>, tile: seq<Tile>, tile': seq<Tile>, h: nat, k: nat)
    requires ListsOk(lists, tile) && |tile'| == |tile| && k < MAX_ORDER
    requires FreeHead(tile', h, k) && !FreeHead(tile, h, k)
    requires forall x, j :: (x != h || j != k) ==> (FreeHead(tile', x, j) <==> FreeHead(tile, x, j))
    ensures ListsOk(lists[k := lists[k] + [h]], tile')
  {
    var r := lists[k := lists[k] + [h]];
    assert h !in lists[k];
    forall j, x: nat | 0 <= j < MAX_ORDER
      ensures x in r[j] <==> FreeHead(tile', x, j)
    {
      assert x in lists[j] <==> FreeHead(tile, x, j);
    }
  }

  /** A free block is taken off its list (src/memory/buddy.c:127-132). */
  function Take(s: State, h: nat, k: nat): State
    requires h < |s.pages| && k < |s.lists| && h in s.lists[k]
  {
    s.(pages := s.pages[h := s.pages[h].(count := s.pages[h].count + 1, data := false, value := 0)],
       lists := s.lists[k := Without(s.lists[k], h)],
       tile := SetWindow(s.tile, h, k, Tile(k, Used)))
  }

  lemma TakeKeepsCore(s: State, h: nat, k: nat)
    requires Core(s) && k < MAX_ORDER && h in s.lists[k]
    ensures FreeHead(s.tile, h, k)
    ensures Core(Take(s, h, k)) && BlockAt(Take(s, h, k).tile, h, Tile(k, Used))
  {
    var r := Take(s, h, k);
    assert FreeHead(s.tile, h, k);
    assert PageOk(s.pages[h], h, s.tile[h]);
    TakeTiles(s.tile, h, k);
    PagesAfterPaint(s.pages, r.pages, s.tile, h, k, Tile(k, Used));
    TakeLists(s, h, k);
    TakeCounts(s, h, k);
  }

  lemma TakeTiles(tile: seq<Tile>, h: nat, k: nat)
    requires Tiling(tile) && Canonical(tile) && FreeHead(tile, h, k) && k < MAX_ORDER
    ensures Tiling(SetWindow(tile, h, k, Tile(k, Used))) && Canonical(SetWindow(tile, h, k, Tile(k, Used)))
  {
    SameBlock(tile, h);
    SetWindowTiling(tile, h, k, Used);
  }

  lemma TakeCounts(s: State, h: nat, k: nat)
    requires Core(s) && k < MAX_ORDER && h in s.lists[k] && FreeHead(s.tile, h, k)
    ensures CountsOk(Take(s, h, k).lists, Take(s, h, k).tile)
  {
    FreeSetAfter(s.tile, h, k, Tile(k, Used));
    BlockUniform(s.tile, h);
    CountsAfterRemove(s.lists, s.tile, Take(s, h, k).tile, k, h, Window(h, k));
  }

  lemma TakeLists(s: State, h: nat, k: nat)
    requires Core(s) && k < MAX_ORDER && h in s.lists[k] && FreeHead(s.tile, h, k)
    ensures ListsOk(Take(s, h, k).lists, Take(s, h, k).tile)
  {
    var r := Take(s, h, k);
    SameBlock(s.tile, h);
    OneHead(h, k);
    WithoutMembers(s.lists[k], h);
    forall j, x: nat | 0 <= j < MAX_ORDER
      ensures x in r.lists[j] <==> FreeHead(r.tile, x, j)
    {
      assert x in s.lists[j] <==> FreeHead(s.tile, x, j);
    }
  }

  /** One turn of the splitting loop (src/memory/buddy.c:136-143): the upper half goes to the
      tail of the next smaller list. `page + size` is the buddy of the kept half (`UpperHalf`). */
  function Split(s: State, h: nat, k: nat): State
    requires BuddyOf(h, k) < |s.pages| && k < |s.lists|
  {
    var u := BuddyOf(h, k);
    s.(pages := s.pages[u := s.pages[u].(data := true, value := k)],
       lists := s.lists[k := s.lists[k] + [u]],
       tile := Halve(s.tile, h, k, Used, Free))
  }

  lemma SplitKeepsCore(s: State, h: nat, k: nat)
    requires Core(s) && k < TOP_ORDER && BlockAt(s.tile, h, Tile(k + 1, Used))
    ensures BuddyOf(h, k) < |s.tile|
    ensures Core(Split(s, h, k)) && BlockAt(Split(s, h, k).tile, h, Tile(k, Used))
  {
    UpperHalf(h, k);
    BuddyOfHead(h, k);
    assert Fits(|s.tile|, h, k + 1);
    HalvesFit(h, k, |s.tile|);
    SplitTiles(s.tile, h, k);
    SplitPages(s, h, k);
    SplitLists(s, h, k);
    SplitFreeSet(s.tile, h, k);
    CountsAfterAppend(s.lists, s.tile, Split(s, h, k).tile, k, BuddyOf(h, k), Window(BuddyOf(h, k), k));
    SplitCanonical(s, h, k);
  }

  lemma SplitTiles(tile: seq<Tile>, h: nat, k: nat)
    requires Tiling(tile) && k < TOP_ORDER && BlockAt(tile, h, Tile(k + 1, Used))
    ensures Tiling(Halve(tile, h, k, Used, Free))
    ensures BlockAt(Halve(tile, h, k, Used, Free), h, Tile(k, Used))
  {
    UpperHalf(h, k);
    assert h + 1 < |tile|;
    HalveTiling(tile, h, k, Used, Free);
  }

  lemma SplitHeads(tile: seq<Tile>, h: nat, k: nat, x: nat, j: nat)
    requires Tiling(tile) && k < TOP_ORDER && BlockAt(tile, h, Tile(k + 1, Used))
    ensures var r := Halve(tile, h, k, Used, Free);
            FreeHead(r, x, j) <==> FreeHead(tile, x, j) || (x == BuddyOf(h, k) < |tile| && j == k)
    ensures !FreeHead(tile, BuddyOf(h, k), k)
  {
    UpperHalf(h, k);
    HalvesOfWindow(h, x, k);
    HalvesOfWindow(h, BuddyOf(h, k), k);
    BuddyWindow(h, k);
    SameBlock(tile, h);
    OneHead(BuddyOf(h, k), k);
    OneHead(h, k + 1);
  }

  lemma SplitLists(s: State, h: nat, k: nat)
    requires Core(s) && k < TOP_ORDER && BlockAt(s.tile, h, Tile(k + 1, Used))
    requires BuddyOf(h, k) < |s.tile|
    ensures ListsOk(Split(s, h, k).lists, Split(s, h, k).tile)
  {
    var u := BuddyOf(h, k);
    var t := Halve(s.tile, h, k, Used, Free);
    forall x: nat, j: nat
      ensures FreeHead(t, x, j) <==> FreeHead(s.tile, x, j) || (x == u && j == k)
    {
      SplitHeads(s.tile, h, k, x, j);
    }
    SplitHeads(s.tile, h, k, u, k);
    AppendKeepsLists(s.lists, s.tile, t, u, k);
  }

  lemma SplitPages(s: State, h: nat, k: nat)
    requires Core(s) && k < TOP_ORDER && BlockAt(s.tile, h, Tile(k + 1, Used))
    requires BuddyOf(h, k) < |s.tile|
    ensures var r := Split(s, h, k); PagesOk(r.pages, r.tile)
  {
    UpperHalf(h, k);
    BuddyOfHead(h, k);
    var u := BuddyOf(h, k);
    var r := Split(s, h, k);
    SameBlock(s.tile, h);
    OneHead(h, k);
    OneHead(u, k);
    OneHead(h, k + 1);
    forall i | 0 <= i < |r.tile|
      ensures PageOk(r.pages[i], i, r.tile[i])
    {
      assert PageOk(s.pages[i], i, s.tile[i]);
      HalvesOfWindow(h, i, k);
      HalvesOfWindow(h, u, k);
    }
  }

  lemma SplitFreeSet(tile: seq<Tile>, h: nat, k: nat)
    requires Tiling(tile) && k < TOP_ORDER && BlockAt(tile, h, Tile(k + 1, Used))
    ensures FreeSet(Halve(tile, h, k, Used, Free)) == FreeSet(tile) + Window(BuddyOf(h, k), k)
    ensures Window(BuddyOf(h, k), k) !! FreeSet(tile)
  {
    WindowHalves(h, k);
    BlockUniform(tile, h);
    HalvesFit(h, k, |tile|);
    FreeSetAfter(tile, h, k + 1, Tile(k, Free));
    FreeSetAfter(SetWindow(tile, h, k + 1, Tile(k, Free)), h, k, Tile(k, Used));
    LowerIdle(FreeSet(tile), Window(h, k), Window(BuddyOf(h, k), k), Window(h, k + 1));
  }

  lemma SplitFreeBuddy(s: State, h: nat, k: nat, i: nat)
    requires Core(s) && k < TOP_ORDER && BlockAt(s.tile, h, Tile(k + 1, Used))
    requires BuddyOf(h, k) < |s.tile|
    requires var r := Split(s, h, k).tile;
             i < |r| && r[i].status == Free && r[i].order < TOP_ORDER && BuddyOf(i, r[i].order) < |r|
    ensures var r := Split(s, h, k).tile; r[BuddyOf(i, r[i].order)] != r[i]
  {
    var r := Split(s, h, k).tile;
    var m := r[i].order;
    var j := BuddyOf(i, m);
    UpperHalf(h, k);
    BuddyWindow(i, m);
    HalvesOfWindow(h, i, k);
    HalvesOfWindow(h, j, k);
    SameBlock(s.tile, h);
    if r[j] == r[i] && m == k {
      BuddyWindow(h, k);
    }
  }

  lemma SplitCanonical(s: State, h: nat, k: nat)
    requires Core(s) && k < TOP_ORDER && BlockAt(s.tile, h, Tile(k + 1, Used))
    requires BuddyOf(h, k) < |s.tile|
    ensures Canonical(Split(s, h, k).tile)
  {
    var r := Split(s, h, k).tile;
    forall i | 0 <= i < |r| && r[i].status == Free && r[i].order < TOP_ORDER
               && BuddyOf(i, r[i].order) < |r|
      ensures r[BuddyOf(i, r[i].order)] != r[i]
    {
      SplitFreeBuddy(s, h, k, i);
    }
  }

  // ----- What the operations do, as seen from outside -----

  /** Blocks in use, other than the one of order `k` at `page`, keep their place and descriptors. */
  ghost predicate OthersKept(s0: State, s: State, page: nat, k: nat) {
    && |s.tile| == |s0.tile| == |s.pages| == |s0.pages|
    && forall i | 0 <= i < |s0.tile| && s0.tile[i].status == Used && !SameWindow(page, i, k) ::
         s.tile[i] == s0.tile[i] && s.pages[i] == s0.pages[i]
  }

  /** The pages of the block of order `k` at `page` are free in `t` in addition to the free pages of `t0`. */
  ghost predicate Added(t0: seq<Tile>, t: seq<Tile>, page: nat, k: nat) {
    && |t| == |t0|
    && forall i {:trigger t[i]} {:trigger t0[i]} | 0 <= i < |t| ::
         t[i].status == Free <==> t0[i].status == Free || SameWindow(page, i, k)
  }

  ghost predicate NotFree(t: seq<Tile>, page: nat, k: nat) {
    forall i {:trigger t[i]} | 0 <= i < |t| && SameWindow(page, i, k) :: t[i].status != Free
  }

  lemma AddedFreeSet(t0: seq<Tile>, t: seq<Tile>, page: nat, k: nat)
    requires Added(t0, t, page, k) && NotFree(t0, page, k) && Fits(|t|, page, k)
    ensures |FreeSet(t)| == |FreeSet(t0)| + Pow2(k)
  {
    WindowMembers(page, k);
    FitsContains(|t|, page, k);
    assert FreeSet(t) == FreeSet(t0) + Window(page, k);
  }

  /** What merging the block of order `order` at `page` up to order `m` takes off the lists. */
  ghost predicate ListsMerged(l0: seq<seq<nat>>, l: seq<seq<nat>>, page: nat, order: nat, m: nat) {
    && |l| == |l0| == MAX_ORDER
    && (forall k | order <= k < m && k < MAX_ORDER ::
          var b := BuddyOf(Base(page, k), k); b in l0[k] && l[k] == Without(l0[k], b))
    && (forall k | 0 <= k < MAX_ORDER && !(order <= k < m) :: l[k] == l0[k])
  }

  /** `freePages` on a last reference: the block becomes free, merged as far as it goes;
      every absorbed buddy leaves its list and the merged block is queued at the tail. */
  ghost predicate Released(s0: State, s: State, page: nat, order: nat) {
    && OthersKept(s0, s, page, order)
    && page < |s.tile| && order <= s.tile[page].order < MAX_ORDER == |s.lists| == |s0.lists|
    && Added(s0.tile, s.tile, page, order)
    && s.freeCount == s0.freeCount + Pow2(order)
    && var m := s.tile[page].order;
       var head := Base(page, m);
       && ListsMerged(s0.lists, s.lists[m := s0.lists[m]], page, order, m)
       && s.lists[m] == s0.lists[m] + [head]
       && (forall i | 0 <= i < |s.pages| && i != page && i != head :: s.pages[i] == s0.pages[i])
       && var p := Dropped(s0.pages[page], m > order);
          && head < |s.pages| && (page != head ==> s.pages[page] == p)
          && s.pages[head] == (if page == head then p else s0.pages[head]).(count := 0, data := true, value := m)
  }

  /** The descriptor given to `freePages` once its last reference is gone: merging clears all its flags. */
  function Dropped(p: Page, merged: bool): Page {
    if merged then Page(0, false, false, false, false, 0, p.linkPrev, p.linkNext) else p.(count := 0)
  }

  /** The same, part of the way: order `k` has been reached and `h` heads the block in hand. */
  ghost predicate Gathered(s0: State, s: State, page: nat, order: nat, h: nat, k: nat) {
    && OthersKept(s0, s, page, order)
    && order <= k <= TOP_ORDER && page < |s.tile| && h == Base(page, k)
    && FreeOrInHand(s0.tile, page, order, s.tile, h, k)
    && ListsMerged(s0.lists, s.lists, page, order, k)
    && s.pages[page] == Dropped(s0.pages[page], k > order)
    && forall i | 0 <= i < |s.pages| && i != page :: s.pages[i] == s0.pages[i]
  }

  /** The free pages and the block put back make up the free pages and the block in hand. */
  ghost predicate FreeOrInHand(t0: seq<Tile>, page: nat, order: nat, t: seq<Tile>, h: nat, k: nat) {
    && |t| == |t0|
    && forall i {:trigger t[i]} {:trigger t0[i]} | 0 <= i < |t| ::
         t[i].status == Free || SameWindow(h, i, k) <==> t0[i].status == Free || SameWindow(page, i, order)
  }

  lemma GraspGathers(s: State, h: nat, k: nat)
    requires Valid(s) && BlockAt(s.tile, h, Tile(k, Used)) && !s.pages[h].pageCache && !s.pages[h].reserved
    requires h + 1 < |s.tile|
    ensures Gathered(s, Grasp(s, h), h, k, h, k)
  {
    GraspKeepsCore(s, h, k);
    SameBlock(s.tile, h);
    WindowBounds(h, k);
  }

  lemma MergeGathers(s0: State, s: State, page: nat, order: nat, h: nat, k: nat)
    requires Gathered(s0, s, page, order, h, k) && Holding(s, h, k) && k < TOP_ORDER
    requires FreeHead(s.tile, BuddyOf(h, k), k)
    requires BuddyOf(h, k) in s.lists[k]
    ensures SameWindow(h, page, k)
    ensures Gathered(s0, Merge(s, h, k, page), page, order, And(h, BuddyOf(h, k)), k + 1)
  {
    LargerWindow(page, k);
    MergeOthers(s0, s, page, order, h, k);
    MergeSets(s0, s, page, order, h, k);
    MergeQueues(s0.lists, s.lists, page, order, k);
  }

  lemma MergeQueues(l0: seq<seq<nat>>, l: seq<seq<nat>>, page: nat, order: nat, k: nat)
    requires ListsMerged(l0, l, page, order, k) && order <= k < TOP_ORDER
    requires BuddyOf(Base(page, k), k) in l[k]
    ensures ListsMerged(l0, l[k := Without(l[k], BuddyOf(Base(page, k), k))], page, order, k + 1)
  {
    assert l[k] == l0[k];
  }

  lemma MergeSets(s0: State, s: State, page: nat, order: nat, h: nat, k: nat)
    requires Gathered(s0, s, page, order, h, k) && Holding(s, h, k) && k < TOP_ORDER
    requires FreeHead(s.tile, BuddyOf(h, k), k)
    ensures FreeOrInHand(s0.tile, page, order, SetWindow(s.tile, h, k + 1, Tile(k + 1, InHand)),
                         And(h, BuddyOf(h, k)), k + 1)
  {
    var r := SetWindow(s.tile, h, k + 1, Tile(k + 1, InHand));
    BuddyOfHead(h, k);
    BaseInWindow(h, k + 1);
    SameBlock(s.tile, BuddyOf(h, k));
    forall i | 0 <= i < |r|
      ensures r[i].status == Free || SameWindow(h, i, k + 1) <==> s.tile[i].status == Free || SameWindow(h, i, k)
    {
      HalvesOfWindow(h, i, k);
    }
  }

  lemma MergeOthers(s0: State, s: State, page: nat, order: nat, h: nat, k: nat)
    requires Gathered(s0, s, page, order, h, k) && Holding(s, h, k) && k < TOP_ORDER
    requires FreeHead(s.tile, BuddyOf(h, k), k) && BuddyOf(h, k) in s.lists[k]
    ensures OthersKept(s0, Merge(s, h, k, page), page, order)
  {
    var r := Merge(s, h, k, page);
    WindowBounds(page, order);
    SameBlock(s.tile, h);
    SameBlock(s.tile, BuddyOf(h, k));
    forall i | 0 <= i < |s0.tile| && s0.tile[i].status == Used && !SameWindow(page, i, order)
      ensures r.tile[i] == s0.tile[i] && r.pages[i] == s0.pages[i]
    {
      assert s.tile[i] == s0.tile[i];
      HalvesOfWindow(h, i, k);
    }
  }

  lemma ReleaseCompletes(s0: State, s: State, page: nat, order: nat, h: nat, k: nat)
    requires Gathered(s0, s, page, order, h, k) && Holding(s, h, k) && Valid(s0)
    requires NotFree(s0.tile, page, order) && Fits(|s0.tile|, page, order)
    requires s.freeCount == s0.freeCount + Pow2(order)
    requires k < TOP_ORDER ==> BuddyOf(h, k) < |s.tile| && !FreeHead(s.tile, BuddyOf(h, k), k)
    ensures Valid(Release(s, h, k)) && Released(s0, Release(s, h, k), page, order)
  {
    ReleaseValid(s0, s, page, order, h, k);
    ReleaseOthers(s0, s, page, order, h, k);
  }

  lemma ReleaseValid(s0: State, s: State, page: nat, order: nat, h: nat, k: nat)
    requires Gathered(s0, s, page, order, h, k) && Holding(s, h, k) && Valid(s0)
    requires NotFree(s0.tile, page, order) && Fits(|s0.tile|, page, order)
    requires s.freeCount == s0.freeCount + Pow2(order)
    requires k < TOP_ORDER ==> BuddyOf(h, k) < |s.tile| && !FreeHead(s.tile, BuddyOf(h, k), k)
    ensures Valid(Release(s, h, k)) && Added(s0.tile, Release(s, h, k).tile, page, order)
  {
    ReleaseKeepsCore(s, h, k);
    ReleaseAdds(s0.tile, s.tile, page, order, h, k);
    AddedFreeSet(s0.tile, Release(s, h, k).tile, page, order);
  }

  lemma ReleaseAdds(t0: seq<Tile>, t: seq<Tile>, page: nat, order: nat, h: nat, k: nat)
    requires FreeOrInHand(t0, page, order, t, h, k)
    ensures Added(t0, SetWindow(t, h, k, Tile(k, Free)), page, order)
  {
  }

  lemma ReleaseOthers(s0: State, s: State, page: nat, order: nat, h: nat, k: nat)
    requires Gathered(s0, s, page, order, h, k) && Holding(s, h, k)
    ensures var r := Release(s, h, k);
            && OthersKept(s0, r, page, order)
            && r.tile[page] == Tile(k, Free)
            && r.lists[k := s0.lists[k]] == s.lists && s.lists[k] == s0.lists[k]
  {
    LargerWindow(page, k);
    SameBlock(s.tile, h);
    WindowBounds(page, k);
  }

  // ----- Freeing as a function -----

  datatype Gathering = Gathering(state: State, head: nat, order: nat)

  /** The merging loop of `freePages` as a function: every list it shortens and every tag it clears. */
  function MergeUp(s: State, page: nat, h: nat, k: nat): Gathering
    decreases TOP_ORDER - k
  {
    var b := BuddyOf(h, k);
    if k >= TOP_ORDER || k >= |s.lists| || page >= |s.pages| || b >= |s.pages| || b !in s.lists[k] || !PageIsBuddy(s.pages[b], k)
    then Gathering(s, h, k)
    else MergeUp(Merge(s, h, k, page), page, And(h, b), k + 1)
  }

  /** The whole state after the last reference to the block at `page` is gone. */
  function Freed(s: State, page: nat): State
    requires page < |s.tile| && |s.pages| == |s.tile|
  {
    var order := s.tile[page].order;
    var m := MergeUp(Grasp(s, page), page, page, order);
    if m.head < |m.state.pages| && m.order < |m.state.lists| then Release(m.state, m.head, m.order) else s
  }

  /** The block in hand, of order `k` at `h`, holds `page`. */
  ghost predicate Merging(s: State, page: nat, h: nat, k: nat) {
    Holding(s, h, k) && page < |s.tile| && SameWindow(h, page, k)
  }

  lemma BuddyInMap(s: State, page: nat, h: nat, k: nat)
    requires Merging(s, page, h, k) && k < TOP_ORDER
    ensures BuddyOf(h, k) < |s.pages|
  {
    PageIsBuddyExact(s, h, k);
  }

  lemma MergeNext(s: State, page: nat, h: nat, k: nat) returns (r: State)
    requires Merging(s, page, h, k) && k < TOP_ORDER
    requires BuddyOf(h, k) < |s.pages| && PageIsBuddy(s.pages[BuddyOf(h, k)], k)
    ensures k < |s.lists| && BuddyOf(h, k) in s.lists[k] && r == Merge(s, h, k, page)
    ensures Merging(r, page, And(h, BuddyOf(h, k)), k + 1)
    ensures MergeUp(r, page, And(h, BuddyOf(h, k)), k + 1) == MergeUp(s, page, h, k)
  {
    PageIsBuddyExact(s, h, k);
    MergeKeepsHolding(s, h, k, page);
    BuddyOfHead(h, k);
    WindowsNest(h, page, k, k + 1);
    BaseInWindow(h, k + 1);
    MergeUpOnce(s, page, h, k);
    r := Merge(s, h, k, page);
  }

  lemma MergeUpOnce(s: State, page: nat, h: nat, k: nat)
    requires k < TOP_ORDER && k < |s.lists| && page < |s.pages| && BuddyOf(h, k) < |s.pages|
    requires BuddyOf(h, k) in s.lists[k] && PageIsBuddy(s.pages[BuddyOf(h, k)], k)
    ensures MergeUp(s, page, h, k) == MergeUp(Merge(s, h, k, page), page, And(h, BuddyOf(h, k)), k + 1)
  {
  }

  lemma MergeStops(s: State, page: nat, h: nat, k: nat)
    requires k < TOP_ORDER ==> BuddyOf(h, k) < |s.pages| && !PageIsBuddy(s.pages[BuddyOf(h, k)], k)
    ensures MergeUp(s, page, h, k) == Gathering(s, h, k)
  {
  }

  /** The block in hand came from `page`, and what is left of the loop leads to `goal`. */
  ghost predicate Gathers(s0: State, s: State, page: nat, order: nat, h: nat, k: nat, goal: Gathering) {
    Gathered(s0, s, page, order, h, k) && Merging(s, page, h, k) && MergeUp(s, page, h, k) == goal
  }

  ghost predicate CannotMerge(s: State, h: nat, k: nat) {
    k < TOP_ORDER ==> BuddyOf(h, k) < |s.tile| && !FreeHead(s.tile, BuddyOf(h, k), k)
  }

  predicate CanMerge(s: State, h: nat, k: nat) {
    k < TOP_ORDER && BuddyOf(h, k) < |s.pages| && PageIsBuddy(s.pages[BuddyOf(h, k)], k)
  }

  lemma GatherNext(s0: State, s: State, page: nat, order: nat, h: nat, k: nat, goal: Gathering) returns (r: State, low: nat)
    requires Gathers(s0, s, page, order, h, k, goal) && CanMerge(s, h, k)
    ensures Gathers(s0, r, page, order, low, k + 1, goal) && r.freeCount == s.freeCount
  {
    PageIsBuddyExact(s, h, k);
    r := MergeNext(s, page, h, k);
    low := And(h, BuddyOf(h, k));
    MergeGathers(s0, s, page, order, h, k);
  }

  lemma GatherStops(s0: State, s: State, page: nat, order: nat, h: nat, k: nat, goal: Gathering)
    requires Gathers(s0, s, page, order, h, k, goal) && !CanMerge(s, h, k)
    ensures goal == Gathering(s, h, k) && CannotMerge(s, h, k)
  {
    if k < TOP_ORDER {
      BuddyInMap(s, page, h, k);
      PageIsBuddyExact(s, h, k);
    }
    MergeStops(s, page, h, k);
  }

  lemma {:induction false} MergeUpGathers(s0: State, s: State, page: nat, order: nat, h: nat, k: nat, goal: Gathering)
    requires Gathers(s0, s, page, order, h, k, goal)
    ensures Gathered(s0, goal.state, page, order, goal.head, goal.order) && Merging(goal.state, page, goal.head, goal.order)
    ensures CannotMerge(goal.state, goal.head, goal.order) && goal.state.freeCount == s.freeCount
    decreases TOP_ORDER - k
  {
    if CanMerge(s, h, k) {
      var r, low := GatherNext(s0, s, page, order, h, k, goal);
      MergeUpGathers(s0, r, page, order, low, k + 1, goal);
    } else {
      GatherStops(s0, s, page, order, h, k, goal);
    }
  }

  lemma FreedIsReleased(s0: State, page: nat, order: nat) returns (r: State)
    requires Valid(s0) && BlockAt(s0.tile, page, Tile(order, Used)) && page + 1 < |s0.tile|
    requires !s0.pages[page].pageCache && !s0.pages[page].reserved
    ensures Merging(Grasp(s0, page), page, page, order)
    ensures r == Freed(s0, page) && Valid(r) && Released(s0, r, page, order)
  {
    var s := Grasp(s0, page);
    GraspKeepsCore(s0, page, order);
    GraspGathers(s0, page, order);
    var m := MergeUp(s, page, page, order);
    MergeUpGathers(s0, s, page, order, page, order, m);
    SameBlock(s0.tile, page);
    ReleaseCompletes(s0, m.state, page, order, m.head, m.order);
    r := Release(m.state, m.head, m.order);
  }

  /** Taking `page` off list `c` and queueing the upper halves down to order `k`. */
  ghost predicate ListsCarved(l0: seq<seq<nat>>, l: seq<seq<nat>>, page: nat, c: nat, k: nat) {
    && |l| == |l0| == MAX_ORDER && k <= c < MAX_ORDER && page in l0[c]
    && forall j | 0 <= j < MAX_ORDER ::
         l[j] == if j == c then Without(l0[c], page)
                 else if k <= j < c then l0[j] + [BuddyOf(page, j)]
                 else l0[j]
  }

  /** Outside the block of order `c` at `page` nothing changed; inside it, only tags did. */
  ghost predicate ChangedWithin(s0: State, s: State, page: nat, c: nat) {
    && |s.tile| == |s0.tile| == |s.pages| == |s0.pages|
    && (forall i | 0 <= i < |s.tile| && !SameWindow(page, i, c) :: s.tile[i] == s0.tile[i] && s.pages[i] == s0.pages[i])
    && (forall i | 0 <= i < |s.tile| && s.tile[i].status == InHand :: s0.tile[i].status == InHand)
    && (forall i {:trigger s.pages[i]} {:trigger s0.pages[i]} | 0 <= i < |s.pages| && i != page && SameWindow(page, i, c) ::
          s.pages[i] == Tagged(s0.pages[i], i, s.tile[i]))
  }

  /** The descriptor of a page in a block that was split: the heads of the free parts are tagged. */
  function Tagged(p: Page, i: nat, t: Tile): Page {
    if t.status == Free && Head(i, t.order) then p.(data := true, value := t.order) else p
  }

  /** A block of order `c` has been taken and split down to order `k`: the front part stays in
      use, the upper halves are free. */
  ghost predicate Carved(s0: State, s: State, page: nat, c: nat, k: nat) {
    && ListsCarved(s0.lists, s.lists, page, c, k)
    && ChangedWithin(s0, s, page, c)
    && BlockAt(s.tile, page, Tile(k, Used))
    && UsedWithin(s0.tile, s.tile, page, c, k)
    && s.pages[page] == s0.pages[page].(count := 1, data := false, value := 0)
  }

  /** Of the free block of order `c` at `page`, exactly the front 2^k pages are now in use. */
  ghost predicate UsedWithin(t0: seq<Tile>, t: seq<Tile>, page: nat, c: nat, k: nat) {
    && |t| == |t0|
    && forall i | 0 <= i < |t| && SameWindow(page, i, c) ::
         t0[i].status == Free && t[i].status == if SameWindow(page, i, k) then Used else Free
  }

  /** The splitting loop from order `k` down to `order`, as a function: every tag it writes. */
  function CarveDown(s: State, page: nat, k: nat, order: nat): State
    decreases k
  {
    if k <= order || BuddyOf(page, k - 1) >= |s.pages| || k > |s.lists| then s
    else CarveDown(Split(s, page, k - 1), page, k - 1, order)
  }

  /** A block of order `k` at `page` is in use. */
  ghost predicate InUse(s: State, page: nat, k: nat) {
    Core(s) && BlockAt(s.tile, page, Tile(k, Used))
  }

  lemma SplitNext(s: State, page: nat, k: nat, order: nat) returns (r: State)
    requires InUse(s, page, k) && order < k
    ensures BuddyOf(page, k - 1) < |s.pages| && k <= |s.lists| && r == Split(s, page, k - 1)
    ensures InUse(r, page, k - 1) && CarveDown(r, page, k - 1, order) == CarveDown(s, page, k, order)
  {
    SplitKeepsCore(s, page, k - 1);
    CarveDownOnce(s, page, k, order);
    r := Split(s, page, k - 1);
  }

  lemma CarveDownOnce(s: State, page: nat, k: nat, order: nat)
    requires order < k <= |s.lists| && BuddyOf(page, k - 1) < |s.pages|
    ensures CarveDown(Split(s, page, k - 1), page, k - 1, order) == CarveDown(s, page, k, order)
  {
  }

  /** The whole state after `page` left list `c` and was split down to `order`. */
  function Carve(s: State, page: nat, c: nat, order: nat): State {
    if page < |s.pages| && c < |s.lists| && page in s.lists[c] then
      Charge(CarveDown(Take(s, page, c), page, c, order), order)
    else s
  }

  /** A block of order `order` leaves the free pages. */
  function Charge(s: State, order: nat): State {
    s.(freeCount := s.freeCount - Pow2(order))
  }

  /** `allocPages` and its variants: `page` was found on list `c`. */
  ghost predicate Allocated(s0: State, s: State, page: nat, c: nat, order: nat) {
    && Carved(s0, s, page, c, order)
    && Added(s.tile, s0.tile, page, order) && NotFree(s.tile, page, order)
    && s.freeCount == s0.freeCount - Pow2(order)
  }

  lemma TakeCarves(s: State, page: nat, c: nat)
    requires Core(s) && c < MAX_ORDER && page in s.lists[c]
    ensures Carved(s, Take(s, page, c), page, c, c)
  {
    TakeKeepsCore(s, page, c);
    assert PageOk(s.pages[page], page, s.tile[page]);
    assert FreeHead(s.tile, page, c);
    SameBlock(s.tile, page);
    WindowBounds(page, c);
  }

  lemma SplitCarves(s0: State, s: State, page: nat, c: nat, k: nat, m: nat)
    requires k == m + 1 && Carved(s0, s, page, c, k) && Core(s)
    ensures BuddyOf(page, m) < |s.tile|
    ensures Core(Split(s, page, m)) && Carved(s0, Split(s, page, m), page, c, m)
  {
    SplitKeepsCore(s, page, m);
    SplitPieces(s0, s, page, c, m);
  }

  lemma SplitPieces(s0: State, s: State, page: nat, c: nat, m: nat)
    requires Carved(s0, s, page, c, m + 1) && BuddyOf(page, m) < |s.tile| && BlockAt(Split(s, page, m).tile, page, Tile(m, Used))
    ensures Carved(s0, Split(s, page, m), page, c, m)
  {
    UpperHalf(page, m);
    SplitOthers(s0, s, page, c, m);
    SplitUsed(s0.tile, s.tile, page, c, m);
    SplitQueues(s0.lists, s.lists, page, c, m);
    assert BuddyOf(page, m) != page by { BuddyWindow(page, m); }
  }

  lemma SplitQueues(l0: seq<seq<nat>>, l: seq<seq<nat>>, page: nat, c: nat, k: nat)
    requires ListsCarved(l0, l, page, c, k + 1)
    ensures ListsCarved(l0, l[k := l[k] + [BuddyOf(page, k)]], page, c, k)
  {
    assert l[k] == l0[k];
  }

  lemma SplitUsed(t0: seq<Tile>, t: seq<Tile>, page: nat, c: nat, k: nat)
    requires UsedWithin(t0, t, page, c, k + 1) && k < c && page < |t|
    ensures UsedWithin(t0, Halve(t, page, k, Used, Free), page, c, k)
  {
    forall i | 0 <= i < |t|
      ensures SameWindow(page, i, k) ==> SameWindow(page, i, k + 1)
    {
      HalvesOfWindow(page, i, k);
    }
  }

  lemma SplitOthers(s0: State, s: State, page: nat, c: nat, k: nat)
    requires ChangedWithin(s0, s, page, c) && k < c < |s.lists| && BuddyOf(page, k) < |s.tile|
    requires Head(BuddyOf(page, k), k) && UsedWithin(s0.tile, s.tile, page, c, k + 1)
    ensures ChangedWithin(s0, Split(s, page, k), page, c)
  {
    SplitTags(s0, s, page, c, k);
    BuddyWindow(page, k);
    WindowsNest(page, BuddyOf(page, k), k + 1, c);
    forall i | 0 <= i < |s.tile| && !SameWindow(page, i, c)
      ensures !SameWindow(page, i, k) && !SameWindow(page, i, k + 1)
    {
      if SameWindow(page, i, k) {
        WindowsNest(page, i, k, c);
      }
      if SameWindow(page, i, k + 1) {
        WindowsNest(page, i, k + 1, c);
      }
    }
  }

  lemma SplitTags(s0: State, s: State, page: nat, c: nat, k: nat)
    requires ChangedWithin(s0, s, page, c) && k < c < |s.lists| && BuddyOf(page, k) < |s.tile|
    requires Head(BuddyOf(page, k), k) && UsedWithin(s0.tile, s.tile, page, c, k + 1)
    ensures var r := Split(s, page, k);
            forall i | 0 <= i < |r.pages| && i != page && SameWindow(page, i, c) :: r.pages[i] == Tagged(s0.pages[i], i, r.tile[i])
  {
    var r := Split(s, page, k);
    var u := BuddyOf(page, k);
    BuddyWindow(page, k);
    OneHead(u, k);
    forall i | 0 <= i < |r.pages| && i != page && SameWindow(page, i, c)
      ensures r.pages[i] == Tagged(s0.pages[i], i, r.tile[i])
    {
      HalvesOfWindow(page, i, k);
      assert s.pages[i] == Tagged(s0.pages[i], i, s.tile[i]);
    }
  }

  lemma CarvedBecomesAllocated(s0: State, s: State, page: nat, c: nat, order: nat)
    requires Valid(s0) && Core(s) && Carved(s0, s, page, c, order)
    requires s.freeCount == s0.freeCount - Pow2(order)
    ensures Valid(s) && Allocated(s0, s, page, c, order)
  {
    CarvedFreeSet(s0.tile, s.tile, page, c, order);
  }

  lemma CarvedFreeSet(t0: seq<Tile>, t: seq<Tile>, page: nat, c: nat, k: nat)
    requires UsedWithin(t0, t, page, c, k) && k <= c < MAX_ORDER && page < |t| && Fits(|t|, page, k)
    requires forall i | 0 <= i < |t| && !SameWindow(page, i, c) :: t[i] == t0[i]
    ensures Added(t, t0, page, k) && NotFree(t, page, k)
    ensures |FreeSet(t0)| == |FreeSet(t)| + Pow2(k)
  {
    forall i | 0 <= i < |t|
      ensures SameWindow(page, i, k) ==> SameWindow(page, i, c)
    {
      if SameWindow(page, i, k) {
        WindowsNest(page, i, k, c);
      }
    }
    AddedFreeSet(t, t0, page, k);
  }

  /** Splitting all the way is carving. */
  lemma {:induction false} CarveDownCarves(s0: State, s: State, page: nat, c: nat, k: nat, order: nat) returns (r: State)
    requires Core(s) && Carved(s0, s, page, c, k) && order <= k
    ensures r == CarveDown(s, page, k, order) && Core(r) && Carved(s0, r, page, c, order) && r.freeCount == s.freeCount
    decreases k
  {
    if k > order {
      var m := k - 1;
      SplitCarves(s0, s, page, c, k, m);
      CarveDownOnce(s, page, k, order);
      r := CarveDownCarves(s0, Split(s, page, m), page, c, m, order);
    } else {
      r := s;
    }
  }

  lemma CarveKeepsValid(s: State, page: nat, c: nat, order: nat) returns (r: State)
    requires Valid(s) && order <= c < MAX_ORDER && page in s.lists[c]
    ensures page < |s.pages| && r == Carve(s, page, c, order) && Valid(r) && Allocated(s, r, page, c, order)
  {
    TakeKeepsCore(s, page, c);
    TakeCarves(s, page, c);
    r := CarveDownCarves(s, Take(s, page, c), page, c, c, order);
    r := Charge(r, order);
    CarvedBecomesAllocated(s, r, page, c, order);
  }
}
