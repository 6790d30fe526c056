/** Page tables, reference counts and page contents behind src/memory/paging.c, and the
    machine that copies every page at fork, which copy-on-write has to be indistinguishable from. */
module CowState {
  import opened Sets
  import W = Walk

  const PAGE: nat := 0x1000
  const PAGE_OFFSET: nat := 0x80_0000_0000

  newtype Byte = x: int | 0 <= x < 256

  /** `memset(data, 0, 0x1000)`. */
  function ZeroPage(): (c: seq<Byte>)
    ensures |c| == PAGE && forall i | 0 <= i < PAGE :: c[i] == 0
  {
    seq(PAGE, _ => 0)
  }

  type Content = c: seq<Byte> | |c| == PAGE witness ZeroPage()

  /** An anonymous `VirtualMemoryArea`; `write` is its PROT_WRITE bit. */
  datatype Area = Area(start: nat, length: nat, write: bool)

  /** A page table entry that is present: the frame and the R/W bit. */
  datatype Pte = Pte(frame: nat, write: bool)

  /** A page of physical memory that is mapped somewhere. */
  datatype Frame = Frame(count: int, content: Content)

  /** `TaskMemory`, without its page tables. */
  datatype Space = Space(ref: int, vm: seq<Area>)

  /** An address space and a page number: the place of an entry in the page tables. */
  type Place = (nat, nat)

  /** `table` holds the present entries of the page tables of all address spaces. */
  datatype State = State(frames: map<nat, Frame>, table: map<Place, Pte>, spaces: map<nat, Space>)

  predicate Contains(a: Area, address: nat) {
    a.start <= address < a.start + a.length
  }

  function FirstPage(a: Area): nat {
    a.start / PAGE
  }

  function EndPage(a: Area): nat {
    (a.start + a.length) / PAGE
  }

  /** An area of whole pages in user space that the page table loops visit in full. */
  predicate AreaOk(a: Area) {
    && a.start % PAGE == 0 && a.length % PAGE == 0 && a.length > 0 && a.start + a.length <= PAGE_OFFSET
    && W.Walkable(FirstPage(a), EndPage(a))
  }

  predicate AreasOk(vm: seq<Area>) {
    && (forall i | 0 <= i < |vm| :: AreaOk(vm[i]))
    && (forall i, j | 0 <= i < j < |vm| :: vm[i].start + vm[i].length <= vm[j].start)
  }

  predicate PageIn(a: Area, page: nat) {
    FirstPage(a) <= page < EndPage(a)
  }

  ghost predicate Covered(vm: seq<Area>, page: nat) {
    exists i | 0 <= i < |vm| :: PageIn(vm[i], page)
  }

  /** Everything that maps frame `f`. */
  ghost function Mappings(table: map<Place, Pte>, f: nat): set<Place> {
    set k | k in table && table[k].frame == f
  }

  /** Every entry leads to a frame in use; a frame's count is the number of entries that map it;
      a writable entry is the only one of its frame. */
  ghost predicate FramesOk(frames: map<nat, Frame>, table: map<Place, Pte>) {
    && (forall k | k in table :: table[k].frame in frames)
    && (forall f | f in frames :: frames[f].count == |Mappings(table, f)| && frames[f].count >= 1)
    && (forall k | k in table && table[k].write :: frames[table[k].frame].count == 1)
  }

  ghost predicate SpacesOk(s: State) {
    && (forall m | m in s.spaces :: s.spaces[m].ref >= 1 && AreasOk(s.spaces[m].vm))
    && (forall k | k in s.table :: k.0 in s.spaces && Covered(s.spaces[k.0].vm, k.1))
  }

  ghost predicate Inv(s: State) {
    FramesOk(s.frames, s.table) && SpacesOk(s)
  }

  // ----- The machine that copies at fork -----

  /** Address spaces with a private copy of each of their pages. */
  datatype Eager = Eager(mem: map<Place, Content>, spaces: map<nat, Space>)

  /** What the address spaces can read, frames and permissions forgotten. */
  ghost function Contents(frames: map<nat, Frame>, table: map<Place, Pte>): map<Place, Content>
    requires FramesOk(frames, table)
  {
    map k | k in table :: frames[table[k].frame].content
  }

  ghost function Abs(s: State): Eager
    requires FramesOk(s.frames, s.table)
  {
    Eager(Contents(s.frames, s.table), s.spaces)
  }

  predicate HasAddress(vm: seq<Area>, address: nat) {
    exists i | 0 <= i < |vm| :: Contains(vm[i], address)
  }

  function Lookup(mem: map<Place, Content>, k: Place): Content {
    if k in mem then mem[k] else ZeroPage()
  }

  /** A copy for `child` of each page of `parent`. */
  function CopyOf(mem: map<Place, Content>, parent: nat, child: nat): map<Place, Content> {
    map k | k in mem && k.0 == parent :: (child, k.1) := mem[k]
  }

  function EagerFork(e: Eager, parent: nat, child: nat): Eager
    requires parent in e.spaces
  {
    Eager(e.mem + CopyOf(e.mem, parent, child), e.spaces[child := Space(1, e.spaces[parent].vm)])
  }

  /** The first access to a page of an area finds it zero. */
  function EagerTouch(e: Eager, m: nat, address: nat): Eager
    requires m in e.spaces
  {
    var k := (m, address / PAGE);
    if HasAddress(e.spaces[m].vm, address) then e.(mem := e.mem[k := Lookup(e.mem, k)]) else e
  }

  function EagerStore(e: Eager, m: nat, address: nat, b: Byte): Eager
    requires m in e.spaces
  {
    var k := (m, address / PAGE);
    if HasAddress(e.spaces[m].vm, address)
    then e.(mem := e.mem[k := Lookup(e.mem, k)[address % PAGE := b]])
    else e
  }

  function EagerExit(e: Eager, m: nat): Eager
    requires m in e.spaces
  {
    if e.spaces[m].ref == 1
    then Eager(map k | k in e.mem && k.0 != m :: e.mem[k], e.spaces - {m})
    else e.(spaces := e.spaces[m := e.spaces[m].(ref := e.spaces[m].ref - 1)])
  }

  // ----- Frames and entries -----

  /** A frame whose count is 1 is mapped in one place. */
  lemma OnlyMapping(frames: map<nat, Frame>, table: map<Place, Pte>, k: Place, n: Place)
    requires FramesOk(frames, table) && k in table && n in table
    requires table[k].frame == table[n].frame && frames[table[k].frame].count == 1
    ensures k == n
  {
    if k != n {
      assert {k, n} <= Mappings(table, table[k].frame);
      SubsetSize({k, n}, Mappings(table, table[k].frame));
    }
  }

  function Ind(b: bool): int {
    if b then 1 else 0
  }

  predicate MapsTo(table: map<Place, Pte>, k: Place, f: nat) {
    k in table && table[k].frame == f
  }

  /** What setting one entry does to the number of mappings of a frame. */
  lemma MappingsAfterSet(table: map<Place, Pte>, k: Place, pte: Pte, f: nat)
    ensures |Mappings(table[k := pte], f)| == |Mappings(table, f)| + Ind(pte.frame == f) - Ind(MapsTo(table, k, f))
  {
    var before, after := Mappings(table, f), Mappings(table[k := pte], f);
    var others := before - {k};
    assert after == if pte.frame == f then others + {k} else others;
    assert before == if MapsTo(table, k, f) then others + {k} else others;
  }

  lemma MappingsAfterClear(table: map<Place, Pte>, k: Place, f: nat)
    ensures |Mappings(table - {k}, f)| == |Mappings(table, f)| - Ind(MapsTo(table, k, f))
  {
    var before, after := Mappings(table, f), Mappings(table - {k}, f);
    assert before == if MapsTo(table, k, f) then after + {k} else after;
  }

  lemma NotMapped(frames: map<nat, Frame>, table: map<Place, Pte>, f: nat)
    requires FramesOk(frames, table) && f !in frames
    ensures Mappings(table, f) == {}
  {
  }

  // ----- Sharing a page with a forked space (src/memory/paging.c:606-612) -----

  /** `referencePage` and `dereferencePage`; a frame that nothing references goes back to the buddy lists. */
  function Referenced(frames: map<nat, Frame>, f: nat): map<nat, Frame>
    requires f in frames
  {
    frames[f := frames[f].(count := frames[f].count + 1)]
  }

  function Dereferenced(frames: map<nat, Frame>, f: nat): map<nat, Frame>
    requires f in frames
  {
    if frames[f].count - 1 != 0 then frames[f := frames[f].(count := frames[f].count - 1)] else frames - {f}
  }

  function Shared(table: map<Place, Pte>, k: Place, copy: Place): map<Place, Pte>
    requires k in table
  {
    table[copy := Pte(table[k].frame, false)][k := Pte(table[k].frame, false)]
  }

  /** What the table loops of fork do to one page, and to several: an absent page is skipped. */
  function ShareOne(table: map<Place, Pte>, parent: nat, child: nat, page: nat): map<Place, Pte> {
    if (parent, page) in table then Shared(table, (parent, page), (child, page)) else table
  }

  function ShareAll(table: map<Place, Pte>, parent: nat, child: nat, pages: seq<nat>): map<Place, Pte> {
    if pages == [] then table
    else ShareOne(ShareAll(table, parent, child, pages[..|pages| - 1]), parent, child, pages[|pages| - 1])
  }

  lemma ShareKeepsFrames(frames: map<nat, Frame>, table: map<Place, Pte>, k: Place, copy: Place)
    requires FramesOk(frames, table) && k in table && copy !in table
    ensures FramesOk(Referenced(frames, table[k].frame), Shared(table, k, copy))
  {
    var f := table[k].frame;
    var frames', table' := Referenced(frames, f), Shared(table, k, copy);
    forall g | g in frames'
      ensures frames'[g].count == |Mappings(table', g)|
    {
      MappingsAfterSet(table, copy, Pte(f, false), g);
      MappingsAfterSet(table[copy := Pte(f, false)], k, Pte(f, false), g);
    }
    forall n | n in table' && table'[n].write
      ensures frames'[table'[n].frame].count == 1
    {
      if table[n].frame == f {
        OnlyMapping(frames, table, n, k);
      }
    }
  }

  lemma ShareContents(frames: map<nat, Frame>, table: map<Place, Pte>, k: Place, copy: Place)
    requires FramesOk(frames, table) && k in table && copy !in table
    requires FramesOk(Referenced(frames, table[k].frame), Shared(table, k, copy))
    ensures Contents(Referenced(frames, table[k].frame), Shared(table, k, copy))
         == Contents(frames, table)[copy := Contents(frames, table)[k]]
  {
  }

  // ----- Faults (src/memory/paging.c:738-767) -----

  /** A zeroed page is mapped where none was. */
  lemma MapKeepsFrames(frames: map<nat, Frame>, table: map<Place, Pte>, k: Place, f: nat, content: Content)
    requires FramesOk(frames, table) && k !in table && f !in frames
    ensures var frames', table' := frames[f := Frame(1, content)], table[k := Pte(f, true)];
            FramesOk(frames', table') && Contents(frames', table') == Contents(frames, table)[k := content]
  {
    var frames', table' := frames[f := Frame(1, content)], table[k := Pte(f, true)];
    NotMapped(frames, table, f);
    forall g | g in frames'
      ensures frames'[g].count == |Mappings(table', g)|
    {
      MappingsAfterSet(table, k, Pte(f, true), g);
    }
  }

  /** A shared page is copied for the space that writes to it. */
  lemma CopyKeepsFrames(frames: map<nat, Frame>, table: map<Place, Pte>, k: Place, f: nat)
    requires FramesOk(frames, table) && k in table && f !in frames
    requires frames[table[k].frame].count != 1
    ensures var g := table[k].frame;
            var frames', table' := Dereferenced(frames[f := Frame(1, frames[g].content)], g), table[k := Pte(f, true)];
            FramesOk(frames', table') && Contents(frames', table') == Contents(frames, table)
  {
    var g := table[k].frame;
    var frames', table' := Dereferenced(frames[f := Frame(1, frames[g].content)], g), table[k := Pte(f, true)];
    NotMapped(frames, table, f);
    CopyCounts(frames, table, k, f);
    forall n | n in table'
      ensures table'[n].frame in frames' && frames'[table'[n].frame].content == frames[table[n].frame].content
      ensures table'[n].write ==> frames'[table'[n].frame].count == 1
    {
    }
  }

  lemma CopyCounts(frames: map<nat, Frame>, table: map<Place, Pte>, k: Place, f: nat)
    requires FramesOk(frames, table) && k in table && f !in frames
    requires frames[table[k].frame].count != 1 && Mappings(table, f) == {}
    ensures var g := table[k].frame;
            var frames', table' := Dereferenced(frames[f := Frame(1, frames[g].content)], g), table[k := Pte(f, true)];
            forall h | h in frames' :: frames'[h].count == |Mappings(table', h)| >= 1
  {
    var g := table[k].frame;
    var frames', table' := Dereferenced(frames[f := Frame(1, frames[g].content)], g), table[k := Pte(f, true)];
    forall h | h in frames'
      ensures frames'[h].count == |Mappings(table', h)|
    {
      MappingsAfterSet(table, k, Pte(f, true), h);
    }
  }

  /** The only user of a page gets it back for writing. */
  lemma UnprotectKeepsFrames(frames: map<nat, Frame>, table: map<Place, Pte>, k: Place)
    requires FramesOk(frames, table) && k in table && frames[table[k].frame].count == 1
    ensures var table' := table[k := Pte(table[k].frame, true)];
            FramesOk(frames, table') && Contents(frames, table') == Contents(frames, table)
  {
    var table' := table[k := Pte(table[k].frame, true)];
    forall h | h in frames
      ensures frames[h].count == |Mappings(table', h)|
    {
      MappingsAfterSet(table, k, table'[k], h);
    }
  }

  /** A write through a writable entry changes one page of one space. */
  lemma WriteKeepsFrames(frames: map<nat, Frame>, table: map<Place, Pte>, k: Place, content: Content)
    requires FramesOk(frames, table) && k in table && table[k].write
    ensures var f := table[k].frame;
            var frames' := frames[f := frames[f].(content := content)];
            FramesOk(frames', table) && Contents(frames', table) == Contents(frames, table)[k := content]
  {
    forall n | n in table && n != k
      ensures table[n].frame != table[k].frame
    {
      if table[n].frame == table[k].frame {
        OnlyMapping(frames, table, k, n);
      }
    }
  }

  // ----- Unmapping (src/memory/paging.c:347-352) -----

  lemma ClearKeepsFrames(frames: map<nat, Frame>, table: map<Place, Pte>, k: Place)
    requires FramesOk(frames, table) && k in table
    ensures var frames', table' := Dereferenced(frames, table[k].frame), table - {k};
            FramesOk(frames', table') && Contents(frames', table') == Contents(frames, table) - {k}
  {
    var frames', table' := Dereferenced(frames, table[k].frame), table - {k};
    forall h | h in frames'
      ensures frames'[h].count == |Mappings(table', h)|
    {
      MappingsAfterClear(table, k, h);
    }
    forall n | n in table'
      ensures table'[n].frame in frames'
    {
      if table[n].frame == table[k].frame && frames[table[k].frame].count == 1 {
        OnlyMapping(frames, table, k, n);
      }
    }
  }

  // ----- The same steps on whole states -----

  function MapZero(s: State, k: Place, page: nat): State {
    s.(frames := s.frames[page := Frame(1, ZeroPage())], table := s.table[k := Pte(page, true)])
  }

  function CopyFor(s: State, k: Place, page: nat): State
    requires k in s.table && s.table[k].frame in s.frames
  {
    var g := s.table[k].frame;
    s.(frames := Dereferenced(s.frames[page := Frame(1, s.frames[g].content)], g), table := s.table[k := Pte(page, true)])
  }

  function Unprotect(s: State, k: Place): State
    requires k in s.table
  {
    s.(table := s.table[k := Pte(s.table[k].frame, true)])
  }

  function Write(s: State, k: Place, content: Content): State
    requires k in s.table && s.table[k].frame in s.frames
  {
    var f := s.table[k].frame;
    s.(frames := s.frames[f := s.frames[f].(content := content)])
  }

  lemma MapZeroTouches(s: State, m: nat, address: nat, page: nat) returns (r: State)
    requires Inv(s) && m in s.spaces && page !in s.frames
    requires (m, address / PAGE) !in s.table && HasAddress(s.spaces[m].vm, address)
    ensures r == MapZero(s, (m, address / PAGE), page)
    ensures Inv(r) && Abs(r) == EagerTouch(Abs(s), m, address)
  {
    r := MapZero(s, (m, address / PAGE), page);
    var k := (m, address / PAGE);
    MapKeepsFrames(s.frames, s.table, k, page, ZeroPage());
    PageOfAddress(s.spaces[m].vm, address);
  }

  lemma UnprotectKeepsView(s: State, k: Place)
    requires Inv(s) && k in s.table && s.frames[s.table[k].frame].count == 1
    ensures Inv(Unprotect(s, k)) && Abs(Unprotect(s, k)) == Abs(s)
  {
    UnprotectKeepsFrames(s.frames, s.table, k);
  }

  lemma CopyKeepsView(s: State, k: Place, page: nat)
    requires Inv(s) && k in s.table && page !in s.frames && s.frames[s.table[k].frame].count != 1
    ensures Inv(CopyFor(s, k, page)) && Abs(CopyFor(s, k, page)) == Abs(s)
  {
    CopyKeepsFrames(s.frames, s.table, k, page);
  }

  /** The fault on a write to a page that is present changes no view and makes the entry writable. */
  lemma FaultKeepsView(s: State, k: Place, page: nat) returns (r: State)
    requires Inv(s) && k in s.table && page !in s.frames
    ensures r == if s.frames[s.table[k].frame].count == 1 then Unprotect(s, k) else CopyFor(s, k, page)
    ensures Inv(r) && Abs(r) == Abs(s) && k in r.table && r.table[k].write
  {
    if s.frames[s.table[k].frame].count == 1 {
      UnprotectKeepsView(s, k);
      r := Unprotect(s, k);
    } else {
      CopyKeepsView(s, k, page);
      r := CopyFor(s, k, page);
    }
  }

  lemma SetAgain(mem: map<Place, Content>, k: Place)
    requires k in mem
    ensures mem[k := mem[k]] == mem
  {
  }

  /** A page that is present has been touched already. */
  lemma PresentIsTouched(s: State, m: nat, address: nat)
    requires Inv(s) && m in s.spaces && (m, address / PAGE) in s.table
    ensures HasAddress(s.spaces[m].vm, address)
    ensures Abs(s) == EagerTouch(Abs(s), m, address)
  {
    var k := (m, address / PAGE);
    PageOfAddress(s.spaces[m].vm, address);
    assert k in Contents(s.frames, s.table);
    SetAgain(Contents(s.frames, s.table), k);
  }

  lemma WriteStores(s: State, m: nat, address: nat, b: Byte)
    requires Inv(s) && m in s.spaces && (m, address / PAGE) in s.table && s.table[(m, address / PAGE)].write
    ensures var k := (m, address / PAGE);
            var r := Write(s, k, s.frames[s.table[k].frame].content[address % PAGE := b]);
            Inv(r) && Abs(r) == EagerStore(Abs(s), m, address, b)
  {
    var k := (m, address / PAGE);
    WriteKeepsFrames(s.frames, s.table, k, s.frames[s.table[k].frame].content[address % PAGE := b]);
    PresentIsTouched(s, m, address);
  }

  /** Storing after the fault is storing. */
  lemma StoreAfterTouch(e: Eager, m: nat, address: nat, b: Byte)
    requires m in e.spaces
    ensures EagerStore(EagerTouch(e, m, address), m, address, b) == EagerStore(e, m, address, b)
  {
    var k := (m, address / PAGE);
    var page := Lookup(e.mem, k);
    assert e.mem[k := page][k := page[address % PAGE := b]] == e.mem[k := page[address % PAGE := b]];
  }

  /** Areas consist of whole pages. */
  lemma PageOfAddress(vm: seq<Area>, address: nat)
    requires AreasOk(vm)
    ensures HasAddress(vm, address) <==> Covered(vm, address / PAGE)
  {
    forall i | 0 <= i < |vm|
      ensures Contains(vm[i], address) <==> PageIn(vm[i], address / PAGE)
    {
      WholePages(vm[i].start, vm[i].length, address);
    }
  }

  lemma WholePages(start: nat, length: nat, address: nat)
    requires start % PAGE == 0 && length % PAGE == 0
    ensures start <= address < start + length <==> start / PAGE <= address / PAGE < (start + length) / PAGE
  {
  }

  function Insert(vm: seq<Area>, i: nat, area: Area): seq<Area>
    requires i <= |vm|
  {
    vm[..i] + [area] + vm[i..]
  }

  lemma InsertCovers(vm: seq<Area>, i: nat, area: Area, page: nat)
    requires i <= |vm| && Covered(vm, page)
    ensures Covered(Insert(vm, i, area), page)
  {
    var j :| 0 <= j < |vm| && PageIn(vm[j], page);
    var j' := if j < i then j else j + 1;
    assert Insert(vm, i, area)[j'] == vm[j];
  }

  // ----- Fork -----

  /** `c` is `c0` with, for `child`, a copy of the pages of `parent` that are in `done`. */
  ghost predicate Copied(c0: map<Place, Content>, c: map<Place, Content>, parent: nat, child: nat, done: set<nat>) {
    && (forall k: Place | k.0 != child :: (k in c <==> k in c0) && (k in c ==> c[k] == c0[k]))
    && (forall k: Place | k.0 == child :: k in c <==> (parent, k.1) in c0 && k.1 in done)
    && (forall k: Place | k.0 == child && k in c :: c[k] == c0[(parent, k.1)])
  }

  lemma CopyOneMore(c0: map<Place, Content>, c: map<Place, Content>, parent: nat, child: nat, done: set<nat>, page: nat)
    requires Copied(c0, c, parent, child, done) && parent != child
    ensures (parent, page) in c0 ==>
              (parent, page) in c && Copied(c0, c[(child, page) := c[(parent, page)]], parent, child, done + {page})
    ensures (parent, page) !in c0 ==> Copied(c0, c, parent, child, done + {page})
  {
  }

  lemma AllCopied(c0: map<Place, Content>, c: map<Place, Content>, parent: nat, child: nat, done: set<nat>)
    requires Copied(c0, c, parent, child, done) && parent != child
    requires forall k | k in c0 :: k.0 != child
    requires forall k | k in c0 && k.0 == parent :: k.1 in done
    ensures c == c0 + CopyOf(c0, parent, child)
  {
    var d := c0 + CopyOf(c0, parent, child);
    forall k: Place
      ensures k in c <==> k in d
      ensures k in c ==> c[k] == d[k]
    {
      if k.0 == child {
        CopyAt(c0, parent, child, k.1);
        assert k == (child, k.1);
      }
    }
  }

  lemma CopyAt(mem: map<Place, Content>, parent: nat, child: nat, page: nat)
    ensures var c := CopyOf(mem, parent, child);
            && ((child, page) in c <==> (parent, page) in mem)
            && ((child, page) in c ==> c[(child, page)] == mem[(parent, page)])
  {
    var k := (parent, page);
    if k in mem {
      assert k.0 == parent && (child, k.1) in CopyOf(mem, parent, child);
    }
  }

  lemma KeysOfContents(frames: map<nat, Frame>, table: map<Place, Pte>)
    requires FramesOk(frames, table)
    ensures Contents(frames, table).Keys == table.Keys
  {
  }

  /** The entries of both spaces for the pages in `done` are read-only. */
  ghost predicate Protected(table: map<Place, Pte>, parent: nat, child: nat, done: set<nat>) {
    forall k | k in table && (k.0 == parent || k.0 == child) && k.1 in done :: !table[k].write
  }

  lemma ShareProtects(table: map<Place, Pte>, parent: nat, child: nat, done: set<nat>, page: nat)
    requires Protected(table, parent, child, done) && (parent, page) in table
    ensures Protected(Shared(table, (parent, page), (child, page)), parent, child, done + {page})
  {
  }

  /** Part of the way through a fork of `parent`, which could read `c0`: the pages in `done` are shared. */
  ghost predicate Forking(c0: map<Place, Content>, frames: map<nat, Frame>, table: map<Place, Pte>,
                          parent: nat, child: nat, done: set<nat>) {
    && FramesOk(frames, table) && parent != child
    && Copied(c0, Contents(frames, table), parent, child, done)
    && Protected(table, parent, child, done)
  }

  lemma ForkingStarts(c0: map<Place, Content>, frames: map<nat, Frame>, table: map<Place, Pte>, parent: nat, child: nat)
    requires FramesOk(frames, table) && c0 == Contents(frames, table) && parent != child && forall k | k in table :: k.0 != child
    ensures Forking(c0, frames, table, parent, child, {})
  {
    KeysOfContents(frames, table);
  }

  lemma ForkingShare(c0: map<Place, Content>, frames: map<nat, Frame>, table: map<Place, Pte>,
                     parent: nat, child: nat, done: set<nat>, page: nat)
    requires Forking(c0, frames, table, parent, child, done) && page !in done && (parent, page) in table
    ensures Forking(c0, Referenced(frames, table[(parent, page)].frame), Shared(table, (parent, page), (child, page)),
                    parent, child, done + {page})
  {
    var k, copy := (parent, page), (child, page);
    var c := Contents(frames, table);
    KeysOfContents(frames, table);
    NotYetCopied(c0, c, parent, child, done, page);
    ShareKeepsFrames(frames, table, k, copy);
    ShareContents(frames, table, k, copy);
    CopyOneMore(c0, c, parent, child, done, page);
    ShareProtects(table, parent, child, done, page);
  }

  lemma NotYetCopied(c0: map<Place, Content>, c: map<Place, Content>, parent: nat, child: nat, done: set<nat>, page: nat)
    requires Copied(c0, c, parent, child, done) && parent != child && page !in done
    ensures (child, page) !in c && ((parent, page) in c <==> (parent, page) in c0)
  {
  }

  lemma ForkingSkip(c0: map<Place, Content>, frames: map<nat, Frame>, table: map<Place, Pte>,
                    parent: nat, child: nat, done: set<nat>, page: nat)
    requires Forking(c0, frames, table, parent, child, done) && page !in done && (parent, page) !in table
    ensures Forking(c0, frames, table, parent, child, done + {page})
  {
    var c := Contents(frames, table);
    KeysOfContents(frames, table);
    NotYetCopied(c0, c, parent, child, done, page);
    CopyOneMore(c0, c, parent, child, done, page);
  }

  /** All pages of all areas are done: the fork is complete. */
  lemma ForkComplete(s0: State, s: State, parent: nat, child: nat, done: set<nat>)
    requires Inv(s0) && parent in s0.spaces && child !in s0.spaces
    requires Forking(Contents(s0.frames, s0.table), s.frames, s.table, parent, child, done)
    requires s.spaces == s0.spaces[child := Space(1, s0.spaces[parent].vm)]
    requires forall page | Covered(s0.spaces[parent].vm, page) :: page in done
    ensures Inv(s) && Abs(s) == EagerFork(Abs(s0), parent, child)
    ensures forall k | k in s.table && (k.0 == parent || k.0 == child) :: !s.table[k].write
  {
    var c0, c := Contents(s0.frames, s0.table), Contents(s.frames, s.table);
    KeysOfContents(s0.frames, s0.table);
    KeysOfContents(s.frames, s.table);
    AllCopied(c0, c, parent, child, done);
    ForkCovers(s0, s, parent, child, done);
  }

  lemma ForkCovers(s0: State, s: State, parent: nat, child: nat, done: set<nat>)
    requires SpacesOk(s0) && parent in s0.spaces && child !in s0.spaces
    requires s.spaces == s0.spaces[child := Space(1, s0.spaces[parent].vm)]
    requires forall page | Covered(s0.spaces[parent].vm, page) :: page in done
    requires forall k | k in s.table :: if k.0 == child then (parent, k.1) in s0.table else k in s0.table
    requires Protected(s.table, parent, child, done)
    ensures SpacesOk(s)
    ensures forall k | k in s.table && (k.0 == parent || k.0 == child) :: !s.table[k].write
  {
    forall k | k in s.table
      ensures k.0 in s.spaces && Covered(s.spaces[k.0].vm, k.1)
      ensures k.0 == parent || k.0 == child ==> k.1 in done
    {
      if k.0 == child {
        assert (parent, k.1) in s0.table;
      }
    }
  }

  // ----- Exit -----

  /** `c` is `c0` without the pages of `m` that are in `done`. */
  ghost predicate Cleared(c0: map<Place, Content>, c: map<Place, Content>, m: nat, done: set<nat>) {
    && (forall k :: k in c <==> k in c0 && !(k.0 == m && k.1 in done))
    && (forall k | k in c :: c[k] == c0[k])
  }

  ghost predicate Unmapping(c0: map<Place, Content>, frames: map<nat, Frame>, table: map<Place, Pte>, m: nat, done: set<nat>) {
    FramesOk(frames, table) && Cleared(c0, Contents(frames, table), m, done)
  }

  lemma UnmappingClear(c0: map<Place, Content>, frames: map<nat, Frame>, table: map<Place, Pte>, m: nat, done: set<nat>, page: nat)
    requires Unmapping(c0, frames, table, m, done) && (m, page) in table
    ensures Unmapping(c0, Dereferenced(frames, table[(m, page)].frame), table - {(m, page)}, m, done + {page})
  {
    ClearKeepsFrames(frames, table, (m, page));
    ClearOneMore(c0, Contents(frames, table), m, done, page);
  }

  lemma UnmappingSkip(c0: map<Place, Content>, frames: map<nat, Frame>, table: map<Place, Pte>, m: nat, done: set<nat>, page: nat)
    requires Unmapping(c0, frames, table, m, done) && (m, page) !in table
    ensures Unmapping(c0, frames, table, m, done + {page})
  {
    KeysOfContents(frames, table);
    ClearOneMore(c0, Contents(frames, table), m, done, page);
  }

  lemma ClearOneMore(c0: map<Place, Content>, c: map<Place, Content>, m: nat, done: set<nat>, page: nat)
    requires Cleared(c0, c, m, done)
    ensures Cleared(c0, c - {(m, page)}, m, done + {page})
    ensures (m, page) !in c ==> Cleared(c0, c, m, done + {page})
  {
  }

  /** All areas are unmapped: the space is gone, and with it every page only it used. */
  lemma ExitComplete(s0: State, s: State, m: nat, done: set<nat>)
    requires Inv(s0) && m in s0.spaces && s0.spaces[m].ref == 1
    requires Unmapping(Contents(s0.frames, s0.table), s.frames, s.table, m, done)
    requires s.spaces == s0.spaces - {m}
    requires forall page | Covered(s0.spaces[m].vm, page) :: page in done
    ensures Inv(s) && Abs(s) == EagerExit(Abs(s0), m)
  {
    var c0, c := Contents(s0.frames, s0.table), Contents(s.frames, s.table);
    KeysOfContents(s0.frames, s0.table);
    KeysOfContents(s.frames, s.table);
    NothingLeft(c0, c, m, done);
    ExitCovers(s0, s, m);
  }

  /** Another user remains. */
  lemma ExitNotLast(s: State, m: nat) returns (r: State)
    requires Inv(s) && m in s.spaces && s.spaces[m].ref > 1
    ensures r == s.(spaces := s.spaces[m := s.spaces[m].(ref := s.spaces[m].ref - 1)])
    ensures Inv(r) && Abs(r) == EagerExit(Abs(s), m)
  {
    r := s.(spaces := s.spaces[m := s.spaces[m].(ref := s.spaces[m].ref - 1)]);
  }

  lemma ExitCovers(s0: State, s: State, m: nat)
    requires SpacesOk(s0) && m in s0.spaces
    requires s.spaces == s0.spaces - {m}
    requires forall k | k in s.table :: k in s0.table && k.0 != m
    ensures SpacesOk(s)
  {
  }

  lemma NothingLeft(c0: map<Place, Content>, c: map<Place, Content>, m: nat, done: set<nat>)
    requires Cleared(c0, c, m, done)
    requires forall k | k in c0 && k.0 == m :: k.1 in done
    ensures c == map k | k in c0 && k.0 != m :: c0[k]
    ensures forall k | k in c :: k in c0 && k.0 != m
  {
  }
}
