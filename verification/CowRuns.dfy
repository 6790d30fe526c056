/** Whole runs of forks, mappings, loads, stores and exits: copy-on-write against eager copying. */
module CowRuns {
  import opened Sets
  import opened CowState
  import opened CopyOnWrite
  import W = Walk

  datatype Op =
    | New(m: nat)
    | Map(m: nat, i: nat, area: Area)
    | ForkFrom(parent: nat, child: nat)
    | ShareWith(m: nat)
    | LoadAt(m: nat, address: nat)
    | StoreAt(m: nat, address: nat, b: Byte)
    | ExitFrom(m: nat)

  datatype Out = Done | Loaded(b: Byte) | Fault | Refused

  /** Operations the rest of the kernel can issue, on anonymous areas with or without PROT_WRITE. A program
      that stores into an area without it is outside: what it sees then depends on earlier faults (`ReadOnlyArea`). */
  predicate Legal(e: Eager, op: Op) {
    match op
    case New(m) => m !in e.spaces
    case Map(m, i, area) =>
      m in e.spaces && i <= |e.spaces[m].vm| && AreasOk(Insert(e.spaces[m].vm, i, area))
    case ForkFrom(parent, child) => parent in e.spaces && child !in e.spaces
    case ShareWith(m) => m in e.spaces
    case LoadAt(m, address) => m in e.spaces
    case StoreAt(m, address, b) =>
      m in e.spaces && (HasAddress(e.spaces[m].vm, address) ==> WritableAt(e.spaces[m].vm, address))
    case ExitFrom(m) => m in e.spaces
  }

  function EagerStep(e: Eager, op: Op): Eager {
    if !Legal(e, op) then e else
      match op
      case New(m) => e.(spaces := e.spaces[m := Space(1, [])])
      case Map(m, i, area) => e.(spaces := e.spaces[m := e.spaces[m].(vm := Insert(e.spaces[m].vm, i, area))])
      case ForkFrom(parent, child) => EagerFork(e, parent, child)
      case ShareWith(m) => e.(spaces := e.spaces[m := e.spaces[m].(ref := e.spaces[m].ref + 1)])
      case LoadAt(m, address) => EagerTouch(e, m, address)
      case StoreAt(m, address, b) => EagerStore(e, m, address, b)
      case ExitFrom(m) => EagerExit(e, m)
  }

  /** What the program sees. */
  function EagerOut(e: Eager, op: Op): Out {
    if !Legal(e, op) then Refused else
      match op
      case LoadAt(m, address) =>
        if HasAddress(e.spaces[m].vm, address) then Loaded(Lookup(e.mem, (m, address / PAGE))[address % PAGE]) else Fault
      case StoreAt(m, address, b) => if HasAddress(e.spaces[m].vm, address) then Done else Fault
      case _ => Done
  }

  function EagerRun(e: Eager, ops: seq<Op>): Eager {
    if ops == [] then e else EagerStep(EagerRun(e, ops[..|ops| - 1]), ops[|ops| - 1])
  }

  function EagerOuts(e: Eager, ops: seq<Op>): (outs: seq<Out>)
    ensures |outs| == |ops|
  {
    if ops == [] then []
    else
      var n := |ops| - 1;
      EagerOuts(e, ops[..n]) + [EagerOut(EagerRun(e, ops[..n]), ops[n])]
  }

  lemma RunExtends(e: Eager, ops: seq<Op>, n: nat)
    requires n < |ops|
    ensures EagerRun(e, ops[..n + 1]) == EagerStep(EagerRun(e, ops[..n]), ops[n])
    ensures EagerOuts(e, ops[..n + 1]) == EagerOuts(e, ops[..n]) + [EagerOut(EagerRun(e, ops[..n]), ops[n])]
  {
    assert ops[..n + 1][..n] == ops[..n];
  }

  // ----- What a run answers, in terms of its operations alone -----

  /** How many users space `m` has before operation `n`; it exists as long as there is one. */
  function Users(ops: seq<Op>, outs: seq<Out>, n: nat, m: nat): int
    requires n <= |ops| == |outs|
  {
    if n == 0 then 0
    else
      var before := Users(ops, outs, n - 1, m);
      if outs[n - 1] != Done then before else
      match ops[n - 1]
      case New(x) => if x == m then 1 else before
      case ForkFrom(parent, child) => if child == m then 1 else before
      case ShareWith(x) => if x == m then before + 1 else before
      case ExitFrom(x) => if x == m then before - 1 else before
      case _ => before
  }

  /** The areas of space `m` before operation `n`: its own and, before the fork, those it was forked with. */
  function AreasAt(ops: seq<Op>, outs: seq<Out>, n: nat, m: nat): seq<Area>
    requires n <= |ops| == |outs|
  {
    if n == 0 then []
    else
      var before := AreasAt(ops, outs, n - 1, m);
      if outs[n - 1] != Done then before else
      match ops[n - 1]
      case New(x) => if x == m then [] else before
      case ForkFrom(parent, child) => if child == m then AreasAt(ops, outs, n - 1, parent) else before
      case Map(x, i, area) => if x == m && i <= |before| then before[..i] + [area] + before[i..] else before
      case _ => before
  }

  /** The byte last stored at `address` in space `m` or, before the fork, in the space it was forked from; 0 if
      there was none. */
  function LastByte(ops: seq<Op>, outs: seq<Out>, n: nat, m: nat, address: nat): Byte
    requires n <= |ops| == |outs|
  {
    if n == 0 then 0 as Byte
    else
      var before := LastByte(ops, outs, n - 1, m, address);
      if outs[n - 1] != Done then before else
      match ops[n - 1]
      case New(x) => if x == m then 0 as Byte else before
      case ForkFrom(parent, child) => if child == m then LastByte(ops, outs, n - 1, parent, address) else before
      case StoreAt(x, a, b) => if x == m && a == address then b else before
      case _ => before
  }

  /** Areas of whole pages in user space, in order and apart, that the page table loops visit in full. */
  ghost predicate Placeable(vm: seq<Area>) {
    && (forall i | 0 <= i < |vm| ::
          && vm[i].start % 4096 == 0 && vm[i].length % 4096 == 0 && vm[i].length > 0
          && vm[i].start + vm[i].length <= 0x80_0000_0000
          && W.Walkable(vm[i].start / 4096, (vm[i].start + vm[i].length) / 4096))
    && (forall i, j | 0 <= i < j < |vm| :: vm[i].start + vm[i].length <= vm[j].start)
  }

  lemma PlaceableIff(vm: seq<Area>)
    ensures Placeable(vm) <==> AreasOk(vm)
  {
    assert forall i | 0 <= i < |vm| :: AreaOk(vm[i]) <==>
      && vm[i].start % 4096 == 0 && vm[i].length % 4096 == 0 && vm[i].length > 0
      && vm[i].start + vm[i].length <= 0x80_0000_0000
      && W.Walkable(vm[i].start / 4096, (vm[i].start + vm[i].length) / 4096);
  }

  /** What operation `n` of a run answers. */
  ghost predicate Answered(ops: seq<Op>, outs: seq<Out>, n: nat)
    requires n < |ops| == |outs|
  {
    match ops[n]
    case New(m) => outs[n] == if Users(ops, outs, n, m) == 0 then Done else Refused
    case Map(m, i, area) =>
      var vm := AreasAt(ops, outs, n, m);
      outs[n] == if Users(ops, outs, n, m) > 0 && i <= |vm| && Placeable(vm[..i] + [area] + vm[i..]) then Done else Refused
    case ForkFrom(parent, child) =>
      outs[n] == if Users(ops, outs, n, parent) > 0 && Users(ops, outs, n, child) == 0 then Done else Refused
    case ShareWith(m) => outs[n] == if Users(ops, outs, n, m) > 0 then Done else Refused
    case LoadAt(m, address) =>
      outs[n] == if Users(ops, outs, n, m) == 0 then Refused
                 else if exists a :: a in AreasAt(ops, outs, n, m) && a.start <= address < a.start + a.length
                 then Loaded(LastByte(ops, outs, n, m, address)) else Fault
    case StoreAt(m, address, b) =>
      outs[n] == if Users(ops, outs, n, m) == 0 then Refused
                 else if exists a :: a in AreasAt(ops, outs, n, m) && a.start <= address < a.start + a.length && a.write then Done
                 else if exists a :: a in AreasAt(ops, outs, n, m) && a.start <= address < a.start + a.length then Refused
                 else Fault
    case ExitFrom(m) => outs[n] == if Users(ops, outs, n, m) > 0 then Done else Refused
  }

  // ----- The eager machine answers like that -----

  function ByteAt(e: Eager, m: nat, address: nat): Byte {
    Lookup(e.mem, (m, address / PAGE))[address % PAGE]
  }

  /** Only spaces that exist have pages, and they have users. */
  ghost predicate EagerOk(e: Eager) {
    (forall k | k in e.mem :: k.0 in e.spaces) && forall m | m in e.spaces :: e.spaces[m].ref >= 1
  }

  lemma StepKeepsEagerOk(e: Eager, op: Op)
    requires EagerOk(e)
    ensures EagerOk(EagerStep(e, op))
  {
  }

  /** Where the byte comes from that an address holds after one step. */
  lemma ByteAfterStep(e: Eager, op: Op, m: nat, address: nat)
    requires EagerOk(e) && Legal(e, op)
    ensures var was, now := ByteAt(e, m, address), ByteAt(EagerStep(e, op), m, address);
            match op
            case New(x) => now == if x == m then 0 as Byte else was
            case ForkFrom(parent, child) => now == if child == m then ByteAt(e, parent, address) else was
            case StoreAt(x, a, b) => now == if x == m && a == address && HasAddress(e.spaces[x].vm, a) then b else was
            case ExitFrom(x) => x == m || now == was
            case _ => now == was
  {
    match op
    case ForkFrom(parent, child) => CopyAt(e.mem, parent, child, address / PAGE);
    case _ =>
  }

  /** The state before operation `n`, as far as space `m` is concerned. */
  ghost predicate Recalls(e: Eager, ops: seq<Op>, outs: seq<Out>, n: nat, m: nat)
    requires n <= |ops| == |outs|
  {
    && (m in e.spaces ==> e.spaces[m].ref == Users(ops, outs, n, m) >= 1 && e.spaces[m].vm == AreasAt(ops, outs, n, m))
    && (m !in e.spaces ==> Users(ops, outs, n, m) == 0)
    && (m in e.spaces ==> forall address: nat :: ByteAt(e, m, address) == LastByte(ops, outs, n, m, address))
  }

  lemma RecallsNext(e: Eager, ops: seq<Op>, outs: seq<Out>, n: nat, m: nat)
    requires n < |ops| == |outs| && EagerOk(e) && outs[n] == EagerOut(e, ops[n])
    requires forall x: nat :: Recalls(e, ops, outs, n, x)
    ensures Recalls(EagerStep(e, ops[n]), ops, outs, n + 1, m)
  {
    assert Recalls(e, ops, outs, n, m);
    var r := EagerStep(e, ops[n]);
    if Legal(e, ops[n]) {
      if ops[n].ForkFrom? {
        assert Recalls(e, ops, outs, n, ops[n].parent);
      }
      forall address: nat | m in r.spaces
        ensures ByteAt(r, m, address) == LastByte(ops, outs, n + 1, m, address)
      {
        ByteAfterStep(e, ops[n], m, address);
      }
    }
  }

  lemma RecallsAnswer(e: Eager, ops: seq<Op>, outs: seq<Out>, n: nat)
    requires n < |ops| == |outs| && outs[n] == EagerOut(e, ops[n])
    requires forall x: nat :: Recalls(e, ops, outs, n, x)
    ensures Answered(ops, outs, n)
  {
    if ops[n].ForkFrom? {
      assert Recalls(e, ops, outs, n, ops[n].parent) && Recalls(e, ops, outs, n, ops[n].child);
    } else {
      assert Recalls(e, ops, outs, n, ops[n].m);
      if ops[n].Map? && ops[n].m in e.spaces && ops[n].i <= |e.spaces[ops[n].m].vm| {
        PlaceableIff(Insert(e.spaces[ops[n].m].vm, ops[n].i, ops[n].area));
      }
    }
  }

  /** The answers of the eager machine are those that the operations call for. */
  lemma {:induction false} EagerRecalls(ops: seq<Op>, outs: seq<Out>, n: nat)
    requires n <= |ops| && outs == EagerOuts(Eager(map[], map[]), ops)
    ensures var e := EagerRun(Eager(map[], map[]), ops[..n]);
            EagerOk(e) && forall m: nat :: Recalls(e, ops, outs, n, m)
    ensures forall i | 0 <= i < n :: Answered(ops, outs, i)
  {
    if n > 0 {
      EagerRecalls(ops, outs, n - 1);
      var start := Eager(map[], map[]);
      var e := EagerRun(start, ops[..n - 1]);
      RunExtends(start, ops, n - 1);
      OutAt(start, ops, n - 1);
      StepKeepsEagerOk(e, ops[n - 1]);
      forall m: nat
        ensures Recalls(EagerRun(start, ops[..n]), ops, outs, n, m)
      {
        RecallsNext(e, ops, outs, n - 1, m);
      }
      RecallsAnswer(e, ops, outs, n - 1);
    }
  }

  lemma {:induction false} OutAt(e: Eager, ops: seq<Op>, n: nat)
    requires n < |ops|
    ensures EagerOuts(e, ops)[n] == EagerOut(EagerRun(e, ops[..n]), ops[n])
  {
    var last := |ops| - 1;
    if n < last {
      OutAt(e, ops[..last], n);
      assert ops[..last][..n] == ops[..n];
    }
  }

  /** `allocPages(0)` for the fault handler: some page that is not in use. */
  method UnusedPage(frames: map<nat, Frame>) returns (page: nat)
    ensures page !in frames
  {
    FreshExists(frames.Keys);
    page :| page !in frames;
  }

  /** One operation on the copy-on-write machine. */
  method Issue(memory: Memory, op: Op) returns (out: Out)
    requires memory.Ok() && Legal(memory.View(), op)
    modifies memory
    ensures memory.Ok() && memory.View() == EagerStep(old(memory.View()), op)
    ensures out == EagerOut(old(memory.View()), op)
  {
    if op.LoadAt? || op.StoreAt? {
      out := IssueAccess(memory, op);
    } else {
      IssueCall(memory, op);
      out := Done;
    }
  }

  /** Anything else. */
  method IssueCall(memory: Memory, op: Op)
    requires memory.Ok() && Legal(memory.View(), op) && !op.LoadAt? && !op.StoreAt?
    modifies memory
    ensures memory.Ok() && memory.View() == EagerStep(old(memory.View()), op)
  {
    match op
    case New(m) => memory.NewSpace(m);
    case Map(m, i, area) => memory.MMap(m, i, area);
    case ForkFrom(parent, child) => memory.Fork(parent, child);
    case ShareWith(m) => memory.ShareSpace(m);
    case ExitFrom(m) => memory.Exit(m);
  }

  /** A load or a store. */
  method IssueAccess(memory: Memory, op: Op) returns (out: Out)
    requires memory.Ok() && Legal(memory.View(), op) && (op.LoadAt? || op.StoreAt?)
    modifies memory
    ensures memory.Ok() && memory.View() == EagerStep(old(memory.View()), op)
    ensures out == EagerOut(old(memory.View()), op)
  {
    var page := UnusedPage(memory.frames);
    if op.LoadAt? {
      var r := memory.Load(op.m, op.address, page);
      out := if r.Some? then Loaded(r.value) else Fault;
    } else {
      var ok := memory.Store(op.m, op.address, op.b, page);
      out := if ok then Done else Fault;
    }
  }

  method IsLegal(memory: Memory, op: Op) returns (legal: bool)
    requires memory.Ok()
    ensures legal == Legal(memory.View(), op)
  {
    legal := Legal(Eager(map[], memory.spaces), op);
  }

  method IssueIfLegal(memory: Memory, op: Op) returns (out: Out)
    requires memory.Ok()
    modifies memory
    ensures memory.Ok() && memory.View() == EagerStep(old(memory.View()), op)
    ensures out == EagerOut(old(memory.View()), op)
  {
    var legal := IsLegal(memory, op);
    out := Refused;
    if legal {
      out := Issue(memory, op);
    }
  }

  /** Any interleaving of forks, loads, stores, mappings and exits gives every program exactly
      what it would have seen had each fork copied every page, as long as it stores only where its
      areas allow that. A load that is served gets the byte last stored at its address in its own space or,
      before the fork, in the space it was forked from, and 0 if there was none. */
  method Replay(ops: seq<Op>) returns (outs: seq<Out>)
    ensures outs == EagerOuts(Eager(map[], map[]), ops)
    ensures forall n | 0 <= n < |ops| :: Answered(ops, outs, n)
  {
    var memory := new Memory();
    ghost var start := Eager(map[], map[]);
    outs := [];
    var n := 0;
    while n < |ops|
      invariant 0 <= n <= |ops| && fresh(memory)
      invariant memory.Ok() && memory.View() == EagerRun(start, ops[..n])
      invariant outs == EagerOuts(start, ops[..n])
    {
      RunExtends(start, ops, n);
      var out := IssueIfLegal(memory, ops[n]);
      outs := outs + [out];
      n := n + 1;
    }
    assert ops[..n] == ops;
    EagerRecalls(ops, outs, n);
  }

  /** Why runs store only into areas with PROT_WRITE: a page of a read-only area is mapped writable by the
      first fault, so a store succeeds there, and the same store fails once a fork has shared the page. */
  method ReadOnlyArea(memory: Memory, m: nat, child: nat, address: nat) returns (first: bool, second: bool)
    requires memory.Ok() && m in memory.spaces && child !in memory.spaces
    requires HasAddress(memory.spaces[m].vm, address) && !WritableAt(memory.spaces[m].vm, address)
    requires (m, address / PAGE) !in memory.table
    modifies memory
    ensures first && !second
  {
    ghost var k := (m, address / PAGE);
    var page := UnusedPage(memory.frames);
    first := memory.Store(m, address, 1, page);
    Present(memory, k);
    memory.Fork(m, child);
    Present(memory, k);
    page := UnusedPage(memory.frames);
    second := memory.Store(m, address, 2, page);
  }

  /** Why the areas of a run satisfy `Walk.Walkable`: forking any other area loses some page of it. The
      parent may have written there, the child reads zero. */
  method ForkLosesPage(memory: Memory, parent: nat, child: nat, area: Area) returns (ghost page: nat)
    requires FramesOk(memory.frames, memory.table) && parent != child && forall k | k in memory.table :: k.0 != child
    requires !W.Walkable(FirstPage(area), EndPage(area))
    modifies memory
    ensures PageIn(area, page) && FramesOk(memory.frames, memory.table)
    ensures Lookup(Contents(memory.frames, memory.table), (child, page)) == ZeroPage()
    ensures var c0 := old(Contents(memory.frames, memory.table));
            Lookup(CopyOf(c0, parent, child), (child, page)) == Lookup(c0, (parent, page))
  {
    ghost var c0 := Contents(memory.frames, memory.table);
    page := MissedIn(area);
    ForkingStarts(c0, memory.frames, memory.table, parent, child);
    ghost var done, visited := memory.ForkArea(parent, child, area, c0, {});
    NeverCopied(c0, Contents(memory.frames, memory.table), parent, child, done, page);
  }

  lemma MissedIn(area: Area) returns (page: nat)
    requires !W.Walkable(FirstPage(area), EndPage(area))
    ensures PageIn(area, page) && !Visited(area, page)
  {
    W.MissedPage(FirstPage(area), EndPage(area));
    page :| FirstPage(area) <= page < EndPage(area) && !W.Reached(FirstPage(area), EndPage(area), page);
  }

  lemma NeverCopied(c0: map<Place, Content>, c: map<Place, Content>, parent: nat, child: nat, done: set<nat>, page: nat)
    requires Copied(c0, c, parent, child, done) && page !in done
    ensures Lookup(c, (child, page)) == ZeroPage()
    ensures Lookup(CopyOf(c0, parent, child), (child, page)) == Lookup(c0, (parent, page))
  {
  }

  lemma Present(memory: Memory, k: Place)
    requires memory.Ok()
    ensures k in memory.View().mem <==> k in memory.table
  {
    KeysOfContents(memory.frames, memory.table);
  }

  /** One read-only area of one page, from the empty machine. */
  method ReadOnlyPage() returns (first: bool, second: bool)
    ensures first && !second
  {
    var area := Area(0x4000_0000, PAGE, false);
    OnePage(area);
    var memory := MapOne(area);
    NothingMapped(memory);
    first, second := ReadOnlyArea(memory, 0, 1, area.start);
  }

  function OneSpace(vm: seq<Area>): Eager {
    Eager(map[], map[0 := Space(1, vm)])
  }

  method EmptySpace() returns (memory: Memory)
    ensures memory.Ok() && fresh(memory) && memory.View() == OneSpace([])
  {
    memory := new Memory();
    memory.NewSpace(0);
  }

  method MapOne(area: Area) returns (memory: Memory)
    requires AreasOk([area])
    ensures memory.Ok() && fresh(memory) && memory.View() == OneSpace([area])
  {
    memory := EmptySpace();
    FirstMap(area);
    IssueCall(memory, Map(0, 0, area));
  }

  lemma FirstMap(area: Area)
    requires AreasOk([area])
    ensures Legal(OneSpace([]), Map(0, 0, area)) && EagerStep(OneSpace([]), Map(0, 0, area)) == OneSpace([area])
  {
    assert Insert([], 0, area) == [area];
  }

  lemma NothingMapped(memory: Memory)
    requires memory.Ok() && memory.View().mem == map[]
    ensures memory.table == map[] && memory.spaces == memory.View().spaces
  {
    forall k | k in memory.table
      ensures k in memory.View().mem
    {
      Present(memory, k);
    }
  }

  lemma OnePage(area: Area)
    requires area == Area(0x4000_0000, PAGE, false)
    ensures AreasOk([area])
    ensures HasAddress([area], area.start) && !WritableAt([area], area.start)
  {
    assert Contains([area][0], area.start);
  }
}
