/** Fork, page faults and unmapping, src/memory/paging.c, on anonymous areas. Every operation
    leaves what the address spaces can read as if fork had copied each page. */
module CopyOnWrite {
  import opened CowState
  import W = Walk

  const EFAULT: int := 14

  datatype Option<T> = None | Some(value: T)

  class Memory {
    var frames: map<nat, Frame>
    var table: map<Place, Pte>
    var spaces: map<nat, Space>

    ghost function Now(): State
      reads this
    {
      State(frames, table, spaces)
    }

    ghost predicate Ok()
      reads this
    {
      Inv(Now())
    }

    /** What the address spaces can read. */
    ghost function View(): Eager
      requires Ok()
      reads this
    {
      Abs(Now())
    }

    constructor ()
      ensures Ok() && View() == Eager(map[], map[])
    {
      frames, table, spaces := map[], map[], map[];
    }

    /** `taskForkMemory` without a parent: an empty address space. */
    method NewSpace(m: nat)
      requires Ok() && m !in spaces
      modifies this
      ensures Ok() && View() == old(View()).(spaces := old(spaces)[m := Space(1, [])])
    {
      spaces := spaces[m := Space(1, [])];
    }

    /** `taskForkMemory` with ForkShareMemory. */
    method ShareSpace(m: nat)
      requires Ok() && m in spaces
      modifies this
      ensures Ok() && View() == old(View()).(spaces := old(spaces)[m := old(spaces)[m].(ref := old(spaces)[m].ref + 1)])
    {
      spaces := spaces[m := spaces[m].(ref := spaces[m].ref + 1)];
    }

    /** `doMMap` once a place has been found: the area is linked in behind `i` others. */
    method MMap(m: nat, i: nat, area: Area)
      requires Ok() && m in spaces && i <= |spaces[m].vm| && AreasOk(Insert(spaces[m].vm, i, area))
      modifies this
      ensures Ok() && View() == old(View()).(spaces := old(spaces)[m := old(spaces)[m].(vm := Insert(old(spaces)[m].vm, i, area))])
    {
      forall k | k in table && k.0 == m
        ensures Covered(Insert(spaces[m].vm, i, area), k.1)
      {
        InsertCovers(spaces[m].vm, i, area, k.1);
      }
      spaces := spaces[m := spaces[m].(vm := Insert(spaces[m].vm, i, area))];
    }

    // ----- Fork and exit -----

    /** The pages of an area that the table loops visit, in their order. */
    static method WalkArea(area: Area) returns (pages: seq<nat>)
      ensures PagesOf(pages, area)
    {
      pages := W.Walk(FirstPage(area), EndPage(area));
    }

    /** `taskForkMemory`: shares every present page, read-only on both sides. */
    method Fork(parent: nat, child: nat)
      requires Ok() && parent in spaces && child !in spaces
      modifies this
      ensures Ok() && View() == EagerFork(old(View()), parent, child)
      ensures forall k | k in table && (k.0 == parent || k.0 == child) :: !table[k].write
    {
      ghost var s0 := Now();
      ghost var c0 := Contents(frames, table);
      var vma := spaces[parent].vm;
      ghost var done := ForkAreas(parent, child, vma, c0);
      spaces := spaces[child := Space(1, vma)];
      ForkComplete(s0, Now(), parent, child, done);
    }

    /** The loop of `taskForkMemory` over the areas. */
    method ForkAreas(parent: nat, child: nat, vma: seq<Area>, ghost c0: map<Place, Content>) returns (ghost done: set<nat>)
      requires FramesOk(frames, table) && c0 == Contents(frames, table) && parent != child && AreasOk(vma)
      requires forall k | k in table :: k.0 != child
      modifies this
      ensures spaces == old(spaces) && Forking(c0, frames, table, parent, child, done)
      ensures forall page: nat :: page in done <==> Covered(vma, page)
    {
      ForkingStarts(c0, frames, table, parent, child);
      done := {};
      var i := 0;
      while i < |vma|
        invariant 0 <= i <= |vma| && spaces == old(spaces)
        invariant Forking(c0, frames, table, parent, child, done)
        invariant forall page: nat :: page in done <==> Covered(vma[..i], page)
      {
        PrefixCovers(vma, i);
        WalksAll(vma[i]);
        ghost var visited;
        done, visited := ForkArea(parent, child, vma[i], c0, done);
        i := i + 1;
      }
      assert vma[..i] == vma;
    }

    /** The loops of `taskForkMemory` over the pages of one area. */
    method ForkArea(parent: nat, child: nat, area: Area, ghost c0: map<Place, Content>, ghost before: set<nat>)
      returns (ghost done: set<nat>, ghost visited: seq<nat>)
      requires Forking(c0, frames, table, parent, child, before)
      requires forall page | page in before :: !Visited(area, page)
      modifies this
      ensures spaces == old(spaces) && Forking(c0, frames, table, parent, child, done)
      ensures forall page: nat :: page in done <==> page in before || Visited(area, page)
      ensures PagesOf(visited, area) && table == ShareAll(old(table), parent, child, visited)
    {
      var pages := WalkArea(area);
      ghost var t0 := table;
      done, visited := before, pages;
      var j := 0;
      assert pages[..j] == [];
      while j < |pages|
        invariant spaces == old(spaces) && AreaForking(c0, t0, parent, child, pages, j, before, done)
      {
        VisitNew(pages, area, j, before, done);
        done := ForkVisited(parent, child, pages, j, c0, t0, before, done);
        j := j + 1;
      }
      assert pages[..j] == pages;
      VisitedAll(pages, area, before, done);
    }

    /** The first `j` of the visited pages are shared. */
    ghost predicate AreaForking(c0: map<Place, Content>, t0: map<Place, Pte>, parent: nat, child: nat, pages: seq<nat>, j: nat,
                                before: set<nat>, done: set<nat>)
      reads this
    {
      && Forking(c0, frames, table, parent, child, done) && VisitedTo(pages, j, before, done)
      && table == ShareAll(t0, parent, child, pages[..j])
    }

    method ForkVisited(parent: nat, child: nat, pages: seq<nat>, j: nat, ghost c0: map<Place, Content>, ghost t0: map<Place, Pte>,
                       ghost before: set<nat>, ghost done0: set<nat>) returns (ghost done: set<nat>)
      requires AreaForking(c0, t0, parent, child, pages, j, before, done0) && j < |pages| && pages[j] !in done0
      modifies this
      ensures spaces == old(spaces) && AreaForking(c0, t0, parent, child, pages, j + 1, before, done)
    {
      VisitNext(pages, j, before, done0);
      ForkPage(parent, child, pages[j], c0, done0);
      done := done0 + {pages[j]};
      assert pages[..j + 1][..j] == pages[..j];
    }

    /** The body of those loops: an absent page is skipped. */
    method ForkPage(parent: nat, child: nat, page: nat, ghost c0: map<Place, Content>, ghost done: set<nat>)
      requires Forking(c0, frames, table, parent, child, done) && page !in done
      modifies this
      ensures spaces == old(spaces) && Forking(c0, frames, table, parent, child, done + {page})
      ensures table == ShareOne(old(table), parent, child, page)
    {
      if (parent, page) in table {
        ForkingShare(c0, frames, table, parent, child, done, page);
        ShareEntry((parent, page), (child, page));
      } else {
        ForkingSkip(c0, frames, table, parent, child, done, page);
      }
    }

    /** Both entries lead to the page, without the R/W bit, and the page is referenced once more. */
    method ShareEntry(k: Place, copy: Place)
      requires k in table && table[k].frame in frames
      modifies this
      ensures frames == Referenced(old(frames), old(table)[k].frame) && table == Shared(old(table), k, copy)
      ensures spaces == old(spaces)
    {
      var oentry := table[k].frame;
      table := table[copy := Pte(oentry, true)];
      table := table[k := Pte(oentry, true)];
      table := table[copy := Pte(oentry, false)];
      table := table[k := Pte(oentry, false)];
      frames := Referenced(frames, oentry);
      assert table == Shared(old(table), k, copy);
    }

    /** `taskExitMemory`: the last user unmaps every area and gives the space up. */
    method Exit(m: nat)
      requires Ok() && m in spaces
      modifies this
      ensures Ok() && View() == EagerExit(old(View()), m)
    {
      var ref := spaces[m].ref - 1;
      if ref != 0 {
        LowerRef(m, ref);
      } else {
        GiveUp(m);
      }
    }

    method LowerRef(m: nat, ref: nat)
      requires Ok() && m in spaces && ref == spaces[m].ref - 1 && ref > 0
      modifies this
      ensures Ok() && View() == EagerExit(old(View()), m)
    {
      ghost var r := ExitNotLast(Now(), m);
      spaces := spaces[m := spaces[m].(ref := ref)];
      assert Now() == r;
    }

    method GiveUp(m: nat)
      requires Ok() && m in spaces && spaces[m].ref == 1
      modifies this
      ensures Ok() && View() == EagerExit(old(View()), m)
    {
      ghost var s0 := Now();
      ghost var done := UnmapAreas(m, spaces[m].vm, Contents(frames, table));
      spaces := spaces - {m};
      ExitComplete(s0, Now(), m, done);
    }

    /** The loop of `taskExitMemory`: the first area is unmapped until there is none. */
    method UnmapAreas(m: nat, areas: seq<Area>, ghost c0: map<Place, Content>) returns (ghost done: set<nat>)
      requires FramesOk(frames, table) && c0 == Contents(frames, table) && AreasOk(areas)
      modifies this
      ensures spaces == old(spaces) && Unmapping(c0, frames, table, m, done)
      ensures forall page: nat :: page in done <==> Covered(areas, page)
    {
      done := {};
      var vm := areas;
      ghost var i := 0;
      while vm != []
        invariant 0 <= i <= |areas| && vm == areas[i..] && spaces == old(spaces)
        invariant Unmapping(c0, frames, table, m, done)
        invariant forall page: nat :: page in done <==> Covered(areas[..i], page)
        decreases |vm|
      {
        PrefixCovers(areas, i);
        WalksAll(areas[i]);
        done := UnmapArea(m, vm[0], c0, done);
        vm := vm[1..];
        i := i + 1;
      }
      assert areas[..i] == areas;
    }

    /** `__doMUNMap` on one area. */
    method UnmapArea(m: nat, area: Area, ghost c0: map<Place, Content>, ghost before: set<nat>) returns (ghost done: set<nat>)
      requires Unmapping(c0, frames, table, m, before)
      modifies this
      ensures spaces == old(spaces) && Unmapping(c0, frames, table, m, done)
      ensures forall page: nat :: page in done <==> page in before || Visited(area, page)
    {
      var pages := WalkArea(area);
      done := before;
      var j := 0;
      while j < |pages|
        invariant 0 <= j <= |pages| && spaces == old(spaces)
        invariant Unmapping(c0, frames, table, m, done) && VisitedTo(pages, j, before, done)
      {
        VisitNext(pages, j, before, done);
        UnmapPage(m, pages[j], c0, done);
        done := done + {pages[j]};
        j := j + 1;
      }
      VisitedAll(pages, area, before, done);
    }

    /** The body of its loops: an absent page is skipped. */
    method UnmapPage(m: nat, page: nat, ghost c0: map<Place, Content>, ghost done: set<nat>)
      requires Unmapping(c0, frames, table, m, done)
      modifies this
      ensures spaces == old(spaces) && Unmapping(c0, frames, table, m, done + {page})
    {
      if (m, page) in table {
        UnmappingClear(c0, frames, table, m, done, page);
        ClearEntry((m, page));
      } else {
        UnmappingSkip(c0, frames, table, m, done, page);
      }
    }

    method ClearEntry(k: Place)
      requires k in table && table[k].frame in frames
      modifies this
      ensures frames == Dereferenced(old(frames), old(table)[k].frame) && table == old(table) - {k}
      ensures spaces == old(spaces)
    {
      frames := Dereferenced(frames, table[k].frame);
      table := table - {k};
    }

    // ----- Page faults -----

    /** `lookForVirtualMemoryArea`: the last area that ends at or before `address`, -1 if none. */
    static method LookForVirtualMemoryArea(vm: seq<Area>, address: nat) returns (prev: int)
      ensures -1 <= prev < |vm|
      ensures forall i | 0 <= i <= prev :: vm[i].start + vm[i].length <= address
      ensures prev + 1 < |vm| ==> vm[prev + 1].start + vm[prev + 1].length > address
    {
      prev := -1;
      var vma := 0;
      while vma < |vm|
        invariant 0 <= vma <= |vm| && prev == vma - 1
        invariant forall i | 0 <= i <= prev :: vm[i].start + vm[i].length <= address
      {
        if vm[vma].start + vm[vma].length > address {
          break;
        }
        prev := vma;
        vma := vma + 1;
      }
    }

    /** The area the fault handler settles on, as long as the address is in one. */
    static method FindArea(vm: seq<Area>, address: nat) returns (found: Option<Area>)
      requires AreasOk(vm)
      ensures found.Some? <==> HasAddress(vm, address)
      ensures found.Some? ==> found.value in vm && Contains(found.value, address)
    {
      if address > PAGE_OFFSET {
        return None;
      }
      var vma := LookForVirtualMemoryArea(vm, address);
      if vma == -1 && vm != [] {
        vma := 0;
      } else if vma == -1 || vma + 1 >= |vm| {
        return None;
      } else {
        vma := vma + 1;
      }
      if vm[vma].start > address {
        return None;
      }
      found := Some(vm[vma]);
    }

    /** `doPageFault`. `present` is the error code's P bit; `page` is what `allocPages(0)` returns. */
    method PageFault(m: nat, address: nat, present: bool, page: nat) returns (retval: int)
      requires Ok() && m in spaces && page !in frames
      requires present <==> (m, address / PAGE) in table
      modifies this
      ensures Ok() && spaces == old(spaces)
      ensures retval == 0 <==> HasAddress(spaces[m].vm, address) && (present ==> WritableAt(spaces[m].vm, address))
      ensures retval == 0 ==> (m, address / PAGE) in table && table[(m, address / PAGE)].write
      ensures retval == 0 ==> View() == EagerTouch(old(View()), m, address)
      ensures retval != 0 ==> retval == -14 && Now() == old(Now())
    {
      var vma := FindArea(spaces[m].vm, address);
      if vma.None? {
        return -EFAULT;
      }
      OneArea(spaces[m].vm, address, vma.value);
      if !present {
        NewPage(m, address, page);
        return 0;
      }
      if !vma.value.write {
        return -EFAULT;
      }
      PresentIsTouched(Now(), m, address);
      WriteFault((m, address / PAGE), page);
      retval := 0;
    }

    /** The `nofile` exit of the fault handler: a zeroed page. */
    method NewPage(m: nat, address: nat, page: nat)
      requires Ok() && m in spaces && page !in frames
      requires (m, address / PAGE) !in table && HasAddress(spaces[m].vm, address)
      modifies this
      ensures Ok() && spaces == old(spaces) && View() == EagerTouch(old(View()), m, address)
      ensures (m, address / PAGE) in table && table[(m, address / PAGE)].write
    {
      ghost var r := MapZeroTouches(Now(), m, address, page);
      frames := frames[page := Frame(1, ZeroPage())];
      table := table[(m, address / PAGE) := Pte(page, true)];
      assert Now() == r;
    }

    /** The `cow` exit of the fault handler: the only user gets the page, another one a copy. */
    method WriteFault(k: Place, page: nat)
      requires Ok() && page !in frames && k in table
      modifies this
      ensures Ok() && spaces == old(spaces) && View() == old(View())
      ensures k in table && table[k].write
    {
      ghost var v := View();
      ghost var r := FaultKeepsView(Now(), k, page);
      if frames[table[k].frame].count == 1 {
        UnprotectPage(k);
      } else {
        CopyPage(k, page);
      }
      assert Now() == r;
      assert View() == v;
    }

    method UnprotectPage(k: Place)
      requires k in table
      modifies this
      ensures Now() == Unprotect(old(Now()), k)
    {
      table := table[k := Pte(table[k].frame, true)];
    }

    method CopyPage(k: Place, page: nat)
      requires k in table && table[k].frame in frames
      modifies this
      ensures Now() == CopyFor(old(Now()), k, page)
    {
      var entryPage := table[k].frame;
      frames := frames[page := Frame(1, frames[entryPage].content)];
      frames := Dereferenced(frames, entryPage);
      table := table[k := Pte(page, true)];
    }

    /** A user load, retried after the fault it may take. */
    method Load(m: nat, address: nat, page: nat) returns (r: Option<Byte>)
      requires Ok() && m in spaces && page !in frames
      modifies this
      ensures Ok() && View() == EagerTouch(old(View()), m, address)
      ensures r.Some? <==> HasAddress(spaces[m].vm, address)
      ensures r.Some? ==> r.value == Lookup(View().mem, (m, address / PAGE))[address % PAGE]
    {
      var k := (m, address / PAGE);
      if k !in table {
        var error := PageFault(m, address, false, page);
        if error != 0 {
          return None;
        }
      } else {
        PresentIsTouched(Now(), m, address);
      }
      r := Some(frames[table[k].frame].content[address % PAGE]);
    }

    /** A user store, retried after the fault it may take. It fails on a page that a fork made
        read-only if the area lacks PROT_WRITE; without a fork it would not have failed. */
    method Store(m: nat, address: nat, b: Byte, page: nat) returns (ok: bool)
      requires Ok() && m in spaces && page !in frames
      modifies this
      ensures Ok() && spaces == old(spaces)
      ensures ok <==> HasAddress(spaces[m].vm, address)
                      && ((m, address / PAGE) in old(table) && !old(table)[(m, address / PAGE)].write ==> WritableAt(spaces[m].vm, address))
      ensures ok ==> View() == EagerStore(old(View()), m, address, b)
      ensures !ok ==> Now() == old(Now())
    {
      var k := (m, address / PAGE);
      ghost var before := View();
      if k !in table || !table[k].write {
        var error := PageFault(m, address, k in table, page);
        if error != 0 {
          return false;
        }
      } else {
        PresentIsTouched(Now(), m, address);
      }
      WriteStores(Now(), m, address, b);
      StoreAfterTouch(before, m, address, b);
      WriteByte(k, address % PAGE, b);
      ok := true;
    }

    method WriteByte(k: Place, offset: nat, b: Byte)
      requires k in table && table[k].frame in frames && offset < PAGE
      modifies this
      ensures Now() == Write(old(Now()), k, old(frames[table[k].frame].content)[offset := b])
    {
      var f := table[k].frame;
      frames := frames[f := frames[f].(content := frames[f].content[offset := b])];
    }
  }

  /** The loops over the page tables of an area come to this page. */
  ghost predicate Visited(area: Area, page: nat) {
    W.Reached(FirstPage(area), EndPage(area), page)
  }

  lemma WalksAll(area: Area)
    requires AreaOk(area)
    ensures forall p: nat :: Visited(area, p) <==> PageIn(area, p)
  {
    W.VisitsAllIff(FirstPage(area), EndPage(area));
    forall p: nat | Visited(area, p)
      ensures PageIn(area, p)
    {
      W.ReachedInside(FirstPage(area), EndPage(area), p);
    }
  }

  /** The visited pages of an area in ascending order. */
  ghost predicate PagesOf(pages: seq<nat>, area: Area) {
    && (forall p: nat :: p in pages <==> Visited(area, p))
    && (forall i, j | 0 <= i < j < |pages| :: pages[i] < pages[j])
  }

  /** The first `j` of `pages` have been visited. */
  ghost predicate VisitedTo(pages: seq<nat>, j: nat, before: set<nat>, done: set<nat>) {
    j <= |pages| && forall p: nat :: p in done <==> p in before || p in pages[..j]
  }

  lemma VisitNext(pages: seq<nat>, j: nat, before: set<nat>, done: set<nat>)
    requires VisitedTo(pages, j, before, done) && j < |pages|
    ensures VisitedTo(pages, j + 1, before, done + {pages[j]})
  {
    assert pages[..j + 1] == pages[..j] + [pages[j]];
  }

  lemma VisitNew(pages: seq<nat>, area: Area, j: nat, before: set<nat>, done: set<nat>)
    requires PagesOf(pages, area) && VisitedTo(pages, j, before, done) && j < |pages|
    requires forall page | page in before :: !Visited(area, page)
    ensures pages[j] !in done
  {
    assert pages[j] in pages;
  }

  lemma VisitedAll(pages: seq<nat>, area: Area, before: set<nat>, done: set<nat>)
    requires PagesOf(pages, area) && VisitedTo(pages, |pages|, before, done)
    ensures forall p: nat :: p in done <==> p in before || Visited(area, p)
  {
    assert pages[..|pages|] == pages;
  }

  predicate WritableAt(vm: seq<Area>, address: nat) {
    exists i | 0 <= i < |vm| :: Contains(vm[i], address) && vm[i].write
  }

  lemma OneArea(vm: seq<Area>, address: nat, a: Area)
    requires AreasOk(vm) && a in vm && Contains(a, address)
    ensures WritableAt(vm, address) <==> a.write
  {
    var j :| 0 <= j < |vm| && vm[j] == a;
    if WritableAt(vm, address) {
      var i :| 0 <= i < |vm| && Contains(vm[i], address) && vm[i].write;
      assert i == j;
    }
  }

  /** The pages of the areas up to and including area `i`; they are not those of earlier areas. */
  lemma PrefixCovers(vm: seq<Area>, i: nat)
    requires AreasOk(vm) && i < |vm|
    ensures AreaOk(vm[i])
    ensures forall page: nat :: Covered(vm[..i + 1], page) <==> Covered(vm[..i], page) || PageIn(vm[i], page)
    ensures forall page: nat :: Covered(vm[..i], page) ==> !PageIn(vm[i], page)
  {
    forall page: nat
      ensures Covered(vm[..i + 1], page) <==> Covered(vm[..i], page) || PageIn(vm[i], page)
      ensures Covered(vm[..i], page) ==> !PageIn(vm[i], page)
    {
      CoveredPrefix(vm, i, page);
    }
  }

  lemma CoveredPrefix(vm: seq<Area>, i: nat, page: nat)
    requires AreasOk(vm) && i < |vm|
    ensures Covered(vm[..i + 1], page) <==> Covered(vm[..i], page) || PageIn(vm[i], page)
    ensures Covered(vm[..i], page) ==> !PageIn(vm[i], page)
  {
    var shorter, longer := vm[..i], vm[..i + 1];
    if Covered(longer, page) {
      var j :| 0 <= j < |longer| && PageIn(longer[j], page);
      assert j < i ==> PageIn(shorter[j], page);
    }
    if Covered(shorter, page) {
      var j :| 0 <= j < |shorter| && PageIn(shorter[j], page);
      assert PageIn(longer[j], page);
      assert vm[j].start + vm[j].length <= vm[i].start;
    }
    if PageIn(vm[i], page) {
      assert PageIn(longer[i], page);
    }
  }
}
