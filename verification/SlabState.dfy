/** The bookkeeping of one slab cache, src/memory/slab.c: free chains threaded through the slabs,
    three slab lists, the local stack of objects and the objects in client hands. */
module SlabState {
  import opened Sets

  const OBJ_COUNT: nat := 256  // perSlabObjCount: OBJECT_COUNT_PER_SLAB_DEFAULT
  const BATCH: nat := 16
  const LIMIT: nat := 80
  const FREE_LIMIT: nat := OBJ_COUNT + 2 * BATCH
  const END: int := -1

  /** Object `index` of the slab whose first page is `slab`. */
  datatype Obj = Obj(slab: nat, index: nat)

  /** `struct Slab`; `desc` is `objDescriptor`, the next free index behind each free one. */
  datatype Slab = Slab(nextFree: int, usedCount: nat, desc: seq<int>)

  /** `chain` is, for each slab, the indices met from `nextFree` on; `local` the objects on the
      local stack, bottom first; `client` the objects handed out. */
  datatype Cache = Cache(
    slabs: map<nat, Slab>,
    slabFree: seq<nat>, slabPartial: seq<nat>, slabFull: seq<nat>,
    freeObjCount: int,
    chain: map<nat, seq<nat>>,
    local: seq<Obj>,
    client: set<Obj>)

  /** Following `desc` from `first` gives exactly the indices of `chain` and then the end mark. */
  ghost predicate IsChain(desc: seq<int>, first: int, chain: seq<nat>)
    decreases |chain|
  {
    if chain == [] then first == END
    else first == chain[0] && chain[0] < |desc| && IsChain(desc, desc[chain[0]], chain[1..])
  }

  ghost predicate SlabOk(s: Slab, chain: seq<nat>) {
    && |s.desc| == OBJ_COUNT && IsChain(s.desc, s.nextFree, chain)
    && NoDup(chain) && (forall i | 0 <= i < |chain| :: chain[i] < OBJ_COUNT)
    && |chain| + s.usedCount == OBJ_COUNT
  }

  ghost predicate SlabsOk(c: Cache) {
    && c.chain.Keys == c.slabs.Keys
    && forall b | b in c.slabs :: SlabOk(c.slabs[b], c.chain[b])
  }

  /** `o` is an object of the cache that is not on its slab's free chain. */
  predicate InUse(c: Cache, o: Obj) {
    o.slab in c.slabs && o.slab in c.chain && o.index < OBJ_COUNT && o.index !in c.chain[o.slab]
  }

  /** Every object is in exactly one place: a free chain, the local stack or client hands. */
  ghost predicate Partition(c: Cache) {
    && NoDup(c.local)
    && (forall o | o in c.local :: o !in c.client)
    && (forall o {:trigger InUse(c, o)} {:trigger o in c.local} {:trigger o in c.client} ::
          InUse(c, o) <==> o in c.local || o in c.client)
  }

  /** The objects on the free chains. */
  ghost function FreeObjs(c: Cache): set<Obj>
    requires c.chain.Keys == c.slabs.Keys
  {
    set b, i | b in c.chain && i in c.chain[b] :: Obj(b, i)
  }

  /** Every slab is on exactly one list; full slabs have no free object, those on `slabFree` no
      other. A partial slab has a free object but need not have one in use. `busy` is a slab
      about to be moved. */
  ghost predicate ListsOk(c: Cache, busy: set<nat>) {
    && NoDup(c.slabFree) && NoDup(c.slabPartial) && NoDup(c.slabFull)
    && (forall b :: b in c.slabs <==> b in c.slabFree || b in c.slabPartial || b in c.slabFull)
    && (forall b | b in c.slabFree :: b !in c.slabPartial && b !in c.slabFull)
    && (forall b | b in c.slabPartial :: b !in c.slabFull)
    && (forall b | b in c.slabFree && b in c.slabs && b !in busy :: c.slabs[b].usedCount == 0)
    && (forall b | b in c.slabPartial && b in c.slabs && b !in busy :: c.slabs[b].usedCount < OBJ_COUNT)
    && (forall b | b in c.slabFull && b in c.slabs && b !in busy :: c.slabs[b].usedCount == OBJ_COUNT)
    && |c.slabFree| <= 1
  }

  ghost predicate Inv(c: Cache, busy: set<nat>) {
    && SlabsOk(c) && Partition(c) && ListsOk(c, busy)
    && c.freeObjCount == |FreeObjs(c)|
  }

  // ----- Chains -----

  /** Writing behind the chain's back leaves it alone. */
  lemma {:induction false} ChainFrame(desc: seq<int>, first: int, chain: seq<nat>, i: nat, x: int)
    requires IsChain(desc, first, chain) && i < |desc| && i !in chain
    ensures IsChain(desc[i := x], first, chain)
    decreases |chain|
  {
    if chain != [] {
      ChainFrame(desc, desc[chain[0]], chain[1..], i, x);
    }
  }

  /** The chain of a slab as `allocSlabForSlabCache` sets it up: i points to i + 1, the last to the end. */
  function FreshDesc(n: nat): (d: seq<int>)
    ensures |d| == n
  {
    seq(n, i => if i == n - 1 then END else i + 1)
  }

  function UpFrom(k: nat, n: nat): (s: seq<nat>)
    requires k <= n
    ensures |s| == n - k
    ensures forall i | 0 <= i < |s| :: s[i] == k + i
    decreases n - k
  {
    if k == n then [] else [k] + UpFrom(k + 1, n)
  }

  lemma {:induction false} FreshChain(k: nat, n: nat)
    requires k < n
    ensures IsChain(FreshDesc(n), k, UpFrom(k, n))
    decreases n - k
  {
    var c := UpFrom(k, n);
    assert c[1..] == UpFrom(k + 1, n);
    if k + 1 < n {
      FreshChain(k + 1, n);
    }
  }

  // ----- Taking an object off a slab (src/memory/slab.c:144-148) -----

  /** `b` has a free object, the one `nextFree` names. */
  predicate CanTake(c: Cache, b: nat) {
    && b in c.slabs && b in c.chain && c.chain[b] != []
    && c.slabs[b].nextFree == c.chain[b][0] < |c.slabs[b].desc|
  }

  function TakeObj(c: Cache, b: nat): Cache
    requires CanTake(c, b)
  {
    var s := c.slabs[b];
    var i := c.chain[b][0];
    c.(slabs := c.slabs[b := Slab(s.desc[i], s.usedCount + 1, s.desc)],
       chain := c.chain[b := c.chain[b][1..]],
       freeObjCount := c.freeObjCount - 1,
       local := c.local + [Obj(b, i)])
  }

  lemma HeadOfChain(c: Cache, b: nat)
    requires SlabsOk(c) && b in c.slabs && c.slabs[b].usedCount < OBJ_COUNT
    ensures c.chain[b] != [] && c.slabs[b].nextFree == c.chain[b][0] && c.chain[b][0] < OBJ_COUNT
  {
    assert SlabOk(c.slabs[b], c.chain[b]);
  }

  /** One object more in use, on top of the local stack. */
  lemma PartitionPush(c: Cache, r: Cache, o: Obj)
    requires Partition(c) && !InUse(c, o)
    requires forall x :: InUse(r, x) <==> InUse(c, x) || x == o
    requires r.local == c.local + [o] && r.client == c.client
    ensures Partition(r)
  {
  }

  /** The object on top of the local stack is no longer in use. */
  lemma PartitionPop(c: Cache, r: Cache, o: Obj)
    requires Partition(c) && c.local != [] && o == c.local[|c.local| - 1]
    requires forall x :: InUse(r, x) <==> InUse(c, x) && x != o
    requires r.local == c.local[..|c.local| - 1] && r.client == c.client
    ensures Partition(r)
  {
    forall x
      ensures x in r.local <==> x in c.local && x != o
    {
      if x in c.local && x != o {
        var i :| 0 <= i < |c.local| && c.local[i] == x;
        assert r.local[i] == x;
      }
    }
  }

  lemma TakeKeepsSlabs(c: Cache, b: nat)
    requires SlabsOk(c) && b in c.slabs && c.slabs[b].usedCount < OBJ_COUNT
    ensures CanTake(c, b) && SlabsOk(TakeObj(c, b))
  {
    HeadOfChain(c, b);
    assert SlabOk(c.slabs[b], c.chain[b]);
  }

  lemma TakeUses(c: Cache, b: nat)
    requires SlabsOk(c) && CanTake(c, b)
    ensures var r, o := TakeObj(c, b), Obj(b, c.chain[b][0]);
            && !InUse(c, o) && (forall x :: InUse(r, x) <==> InUse(c, x) || x == o)
            && r.chain.Keys == r.slabs.Keys && |FreeObjs(c)| == |FreeObjs(r)| + 1
  {
    assert SlabOk(c.slabs[b], c.chain[b]);
    var r, o := TakeObj(c, b), Obj(b, c.chain[b][0]);
    var chain := c.chain[b];
    assert chain == [chain[0]] + chain[1..];
    assert chain[0] !in chain[1..];
    assert FreeObjs(c) == FreeObjs(r) + {o} && o !in FreeObjs(r);
  }

  /** Some objects went from slab `b` to the local stack; nothing else changed. */
  ghost predicate TookFrom(c: Cache, r: Cache, b: nat) {
    && r.slabFree == c.slabFree && r.slabPartial == c.slabPartial && r.slabFull == c.slabFull
    && r.client == c.client && r.slabs.Keys == c.slabs.Keys && |r.local| >= |c.local|
    && r.freeObjCount + |r.local| == c.freeObjCount + |c.local|
    && forall x | x in c.slabs && x != b :: r.slabs[x] == c.slabs[x]
  }

  /** `slabFree` is only used once the partial slabs are used up. */
  ghost predicate PartialFirst(c: Cache, r: Cache) {
    && (forall b | b in c.slabPartial :: b in r.slabPartial || b in r.slabFull)
    && (r.slabFree == c.slabFree || forall b | b in c.slabPartial :: b in r.slabFull)
  }

  /** Free objects went to the local stack, those of partial slabs first; nothing else changed. */
  ghost predicate Filling(c: Cache, r: Cache) {
    && r.client == c.client && r.slabs.Keys == c.slabs.Keys
    && r.freeObjCount + |r.local| == c.freeObjCount + |c.local|
    && PartialFirst(c, r)
  }

  /** As many objects went to the empty local stack as a batch and the free objects allow. */
  ghost predicate Filled(c: Cache, r: Cache) {
    && Filling(c, r)
    && |r.local| == if c.freeObjCount < 16 then c.freeObjCount else 16
  }

  /** The slab `refillCache` picks has a free object, even if it is a partial one that was never used. */
  lemma FrontHasRoom(c: Cache, b: nat)
    requires Inv(c, {})
    requires (c.slabPartial != [] && b == c.slabPartial[0]) || (c.slabFree != [] && b == c.slabFree[0])
    ensures b in c.slabs && c.slabs[b].usedCount < OBJ_COUNT && Inv(c, {b})
  {
    assert b in c.slabPartial || b in c.slabFree;
  }

  /** The end mark tells a full slab, even to a caller who has not looked at `usedCount`. */
  lemma EndMeansFull(c: Cache, b: nat)
    requires SlabsOk(c) && b in c.slabs
    ensures c.slabs[b].nextFree == END <==> c.slabs[b].usedCount == OBJ_COUNT
    ensures c.slabs[b].usedCount <= OBJ_COUNT
  {
    assert SlabOk(c.slabs[b], c.chain[b]);
  }

  /** Without a partial or a free slab there is no free object. */
  lemma ListsEmptyMeansNoneFree(c: Cache)
    requires Inv(c, {}) && c.slabPartial == [] && c.slabFree == []
    ensures c.freeObjCount == 0
  {
    forall b | b in c.slabs
      ensures c.chain[b] == []
    {
      assert SlabOk(c.slabs[b], c.chain[b]);
      assert b in c.slabFull;
    }
    assert FreeObjs(c) == {};
  }

  /** One round of the outer loop of `refillCache`: the front partial slab, or else the front free one, changes lists. */
  lemma RoundKeepsOrder(c0: Cache, c: Cache, b: nat, w: Which)
    requires PartialFirst(c0, c) && ListsOk(c, {b}) && b in c.slabs && w != OnFree
    requires if c.slabPartial != [] then b == c.slabPartial[0] else c.slabFree != [] && b == c.slabFree[0]
    ensures PartialFirst(c0, MoveTo(c, b, w))
  {
    var r := MoveTo(c, b, w);
    DelistMembers(c, b);
    assert b in c.slabPartial || b in c.slabFree;
    forall x | x in c0.slabPartial
      ensures x in r.slabPartial || x in r.slabFull
      ensures x in c.slabFull ==> x in r.slabFull
    {
      assert x != b ==> (x in c.slabPartial ==> x in r.slabPartial) && (x in c.slabFull ==> x in r.slabFull);
    }
    if c.slabPartial != [] {
      WithoutAbsent(c.slabFree, b);
    }
  }

  /** The list a slab goes to after `refillCache` took objects from it. */
  function ListAfterTaking(s: Slab): Which {
    if s.nextFree == END then OnFull else OnPartial
  }

  /** What a whole round of the outer loop of `refillCache` does. */
  lemma RoundDone(c0: Cache, c: Cache, t: Cache, b: nat) returns (r: Cache)
    requires Filling(c0, c) && TookFrom(c, t, b) && Inv(t, {b}) && b in c.slabs
    requires if c.slabPartial != [] then b == c.slabPartial[0] else c.slabFree != [] && b == c.slabFree[0]
    ensures r == MoveTo(t, b, ListAfterTaking(t.slabs[b]))
    ensures Inv(r, {}) && Filling(c0, r) && r.local == t.local
  {
    EndMeansFull(t, b);
    var w := ListAfterTaking(t.slabs[b]);
    MoveKeepsInv(t, b, w);
    RoundKeepsOrder(c0, t, b, w);
    r := MoveTo(t, b, w);
  }

  lemma TakeKeepsInv(c: Cache, b: nat)
    requires Inv(c, {b}) && b in c.slabs && c.slabs[b].usedCount < OBJ_COUNT
    ensures CanTake(c, b) && Inv(TakeObj(c, b), {b}) && TookFrom(c, TakeObj(c, b), b)
  {
    TakeKeepsSlabs(c, b);
    TakeUses(c, b);
    PartitionPush(c, TakeObj(c, b), Obj(b, c.chain[b][0]));
  }

  // ----- Putting an object back (src/memory/slab.c:183-187) -----

  function GiveBack(c: Cache, o: Obj): Cache
    requires o.slab in c.slabs && o.slab in c.chain && c.slabs[o.slab].usedCount > 0 && o.index < |c.slabs[o.slab].desc|
    requires c.local != []
  {
    var s := c.slabs[o.slab];
    c.(slabs := c.slabs[o.slab := Slab(o.index, s.usedCount - 1, s.desc[o.index := s.nextFree])],
       chain := c.chain[o.slab := [o.index] + c.chain[o.slab]],
       freeObjCount := c.freeObjCount + 1,
       local := c.local[..|c.local| - 1])
  }

  /** A slab with an object in use counts it. */
  lemma UsedIsCounted(c: Cache, o: Obj)
    requires SlabsOk(c) && InUse(c, o)
    ensures c.slabs[o.slab].usedCount > 0 && o.index < |c.slabs[o.slab].desc|
  {
    assert SlabOk(c.slabs[o.slab], c.chain[o.slab]);
    if c.slabs[o.slab].usedCount == 0 {
      AllBelow(c.chain[o.slab], OBJ_COUNT, o.index);
    }
  }

  lemma GiveKeepsSlabs(c: Cache, o: Obj)
    requires SlabsOk(c) && InUse(c, o) && c.local != []
    ensures c.slabs[o.slab].usedCount > 0 && o.index < |c.slabs[o.slab].desc|
    ensures SlabsOk(GiveBack(c, o))
  {
    UsedIsCounted(c, o);
    var s := c.slabs[o.slab];
    assert SlabOk(s, c.chain[o.slab]);
    ChainFrame(s.desc, s.nextFree, c.chain[o.slab], o.index, s.nextFree);
    var chain := [o.index] + c.chain[o.slab];
    assert chain[1..] == c.chain[o.slab];
  }

  lemma GiveUses(c: Cache, o: Obj)
    requires SlabsOk(c) && InUse(c, o) && c.local != []
    requires c.slabs[o.slab].usedCount > 0 && o.index < |c.slabs[o.slab].desc|
    ensures var r := GiveBack(c, o);
            && (forall x :: InUse(r, x) <==> InUse(c, x) && x != o)
            && r.chain.Keys == r.slabs.Keys && |FreeObjs(r)| == |FreeObjs(c)| + 1
  {
    var r := GiveBack(c, o);
    assert forall i :: i in r.chain[o.slab] <==> i == o.index || i in c.chain[o.slab];
    forall x
      ensures x in FreeObjs(r) <==> x in FreeObjs(c) || x == o
    {
      FreeObjMember(c, x);
      FreeObjMember(r, x);
    }
    assert FreeObjs(r) == FreeObjs(c) + {o} && o !in FreeObjs(c);
  }

  lemma FreeObjMember(c: Cache, o: Obj)
    requires c.chain.Keys == c.slabs.Keys
    ensures o in FreeObjs(c) <==> o.slab in c.chain && o.index in c.chain[o.slab]
  {
    assert o == Obj(o.slab, o.index);
  }

  lemma GiveKeepsInv(c: Cache, o: Obj)
    requires Inv(c, {o.slab}) && c.local != [] && o == c.local[|c.local| - 1]
    ensures InUse(c, o) && c.slabs[o.slab].usedCount > 0 && o.index < |c.slabs[o.slab].desc|
    ensures Inv(GiveBack(c, o), {o.slab})
  {
    assert o in c.local;
    GiveKeepsSlabs(c, o);
    GiveUses(c, o);
    PartitionPop(c, GiveBack(c, o), o);
  }

  // ----- Moving slabs between the lists (src/memory/slab.c:150-154 and 188-195) -----

  datatype Which = OnFree | OnPartial | OnFull

  /** `listDelete(&slab->list)`: the slab is on one of the lists, whichever. */
  function Delist(c: Cache, b: nat): Cache {
    c.(slabFree := Without(c.slabFree, b), slabPartial := Without(c.slabPartial, b), slabFull := Without(c.slabFull, b))
  }

  /** `listDelete` and `listAdd` to the front of another list. */
  function MoveTo(c: Cache, b: nat, w: Which): Cache {
    var d := Delist(c, b);
    match w
    case OnFree => d.(slabFree := [b] + d.slabFree)
    case OnPartial => d.(slabPartial := [b] + d.slabPartial)
    case OnFull => d.(slabFull := [b] + d.slabFull)
  }

  lemma DelistMembers(c: Cache, b: nat)
    requires ListsOk(c, {b}) && b in c.slabs
    ensures var d := Delist(c, b);
            && NoDup(d.slabFree) && NoDup(d.slabPartial) && NoDup(d.slabFull)
            && (forall x :: x in d.slabFree <==> x in c.slabFree && x != b)
            && (forall x :: x in d.slabPartial <==> x in c.slabPartial && x != b)
            && (forall x :: x in d.slabFull <==> x in c.slabFull && x != b)
            && |d.slabFree| <= |c.slabFree|
  {
    WithoutMembers(c.slabFree, b);
    WithoutMembers(c.slabPartial, b);
    WithoutMembers(c.slabFull, b);
  }

  lemma MoveKeepsLists(c: Cache, b: nat, w: Which)
    requires ListsOk(c, {b}) && b in c.slabs && c.slabs[b].usedCount <= OBJ_COUNT
    requires w == OnFree ==> c.slabs[b].usedCount == 0 && Without(c.slabFree, b) == []
    requires w == OnPartial ==> c.slabs[b].usedCount < OBJ_COUNT
    requires w == OnFull ==> c.slabs[b].usedCount == OBJ_COUNT
    ensures ListsOk(MoveTo(c, b, w), {})
  {
    DelistMembers(c, b);
    var r := MoveTo(c, b, w);
    var d := Delist(c, b);
    match w
    case OnFree => PrependNoDup(d.slabFree, b);
    case OnPartial => PrependNoDup(d.slabPartial, b);
    case OnFull => PrependNoDup(d.slabFull, b);
  }

  lemma PrependNoDup(s: seq<nat>, b: nat)
    requires NoDup(s) && b !in s
    ensures NoDup([b] + s) && forall x :: x in [b] + s <==> x == b || x in s
  {
  }

  lemma MoveKeepsInv(c: Cache, b: nat, w: Which)
    requires Inv(c, {b}) && b in c.slabs
    requires w == OnFree ==> c.slabs[b].usedCount == 0 && Without(c.slabFree, b) == []
    requires w == OnPartial ==> c.slabs[b].usedCount < OBJ_COUNT
    requires w == OnFull ==> c.slabs[b].usedCount == OBJ_COUNT
    ensures Inv(MoveTo(c, b, w), {})
  {
    assert SlabOk(c.slabs[b], c.chain[b]);
    MoveKeepsLists(c, b, w);
    SameObjectsKeep(c, MoveTo(c, b, w));
  }

  /** Where the objects are does not depend on the lists. */
  lemma SameObjectsKeep(c: Cache, r: Cache)
    requires SlabsOk(c) && Partition(c) && c.freeObjCount == |FreeObjs(c)|
    requires r.slabs == c.slabs && r.chain == c.chain && r.local == c.local && r.client == c.client
    requires r.freeObjCount == c.freeObjCount
    ensures SlabsOk(r) && Partition(r) && r.freeObjCount == |FreeObjs(r)|
  {
    assert forall o :: InUse(r, o) <==> InUse(c, o);
    assert FreeObjs(r) == FreeObjs(c);
  }

  /** At most one slab stays on `slabFree`: a second one would exceed the limit of free objects. */
  lemma LimitKeepsOneFree(c: Cache, b: nat)
    requires Inv(c, {b}) && b in c.slabs && c.slabs[b].usedCount == 0 && c.freeObjCount <= FREE_LIMIT
    ensures Without(c.slabFree, b) == []
  {
    DelistMembers(c, b);
    var rest := Without(c.slabFree, b);
    if rest != [] {
      var x := rest[0];
      assert x in rest && x in c.slabFree && x in c.slabs && x != b;
      ManyFree(c, b, x);
    }
  }

  lemma ManyFree(c: Cache, b: nat, x: nat)
    requires SlabsOk(c) && b in c.slabs && x in c.slabs && b != x
    requires c.slabs[b].usedCount == 0 && c.slabs[x].usedCount == 0
    ensures |FreeObjs(c)| >= 2 * OBJ_COUNT
  {
    var ob, ox := ObjsOf(b, OBJ_COUNT), ObjsOf(x, OBJ_COUNT);
    WholeSlabFree(c, b);
    WholeSlabFree(c, x);
    assert |ob + ox| == 2 * OBJ_COUNT;
    SubsetSize(ob + ox, FreeObjs(c));
  }

  function ObjsOf(b: nat, n: nat): (s: set<Obj>)
    ensures |s| == n
    ensures forall o :: o in s <==> o.slab == b && o.index < n
  {
    if n == 0 then {} else ObjsOf(b, n - 1) + {Obj(b, n - 1)}
  }

  lemma WholeSlabFree(c: Cache, b: nat)
    requires SlabsOk(c) && b in c.slabs && c.slabs[b].usedCount == 0
    ensures ObjsOf(b, OBJ_COUNT) <= FreeObjs(c)
    ensures forall o: Obj | o.slab == b :: !InUse(c, o)
  {
    assert SlabOk(c.slabs[b], c.chain[b]);
    forall o | o in ObjsOf(b, OBJ_COUNT)
      ensures o in FreeObjs(c)
    {
      AllBelow(c.chain[b], OBJ_COUNT, o.index);
      FreeObjMember(c, o);
    }
    forall o: Obj | o.slab == b
      ensures !InUse(c, o)
    {
      if o.index < OBJ_COUNT {
        AllBelow(c.chain[b], OBJ_COUNT, o.index);
      }
    }
  }

  // ----- New and destroyed slabs (src/memory/slab.c:54-76 and 80-89) -----

  function NewSlab(c: Cache, b: nat): Cache {
    c.(slabs := c.slabs[b := Slab(0, 0, FreshDesc(OBJ_COUNT))], chain := c.chain[b := UpFrom(0, OBJ_COUNT)],
       slabFree := [b] + c.slabFree, freeObjCount := c.freeObjCount + OBJ_COUNT)
  }

  lemma NewSlabKeepsInv(c: Cache, b: nat)
    requires Inv(c, {}) && b !in c.slabs && c.slabFree == []
    ensures Inv(NewSlab(c, b), {})
  {
    var r := NewSlab(c, b);
    FreshChain(0, OBJ_COUNT);
    assert SlabOk(r.slabs[b], r.chain[b]);
    NewSlabUse(c, b);
    NewSlabCounts(c, b);
    PrependNoDup(c.slabFree, b);
    assert b !in c.slabPartial && b !in c.slabFull;
  }

  lemma NewSlabUse(c: Cache, b: nat)
    requires SlabsOk(c) && b !in c.slabs && NewSlab(c, b).chain.Keys == NewSlab(c, b).slabs.Keys
    ensures forall o :: InUse(NewSlab(c, b), o) <==> InUse(c, o)
  {
    var r := NewSlab(c, b);
    forall o
      ensures InUse(r, o) <==> InUse(c, o)
    {
      if o.slab == b && o.index < OBJ_COUNT {
        assert r.chain[b][o.index] == o.index;
      }
    }
  }

  lemma NewSlabMember(c: Cache, b: nat, o: Obj)
    requires SlabsOk(c) && b !in c.slabs && NewSlab(c, b).chain.Keys == NewSlab(c, b).slabs.Keys
    ensures o in FreeObjs(NewSlab(c, b)) <==> o in FreeObjs(c) || o in ObjsOf(b, OBJ_COUNT)
    ensures o in ObjsOf(b, OBJ_COUNT) ==> o !in FreeObjs(c)
  {
    var r := NewSlab(c, b);
    FreeObjMember(r, o);
    FreeObjMember(c, o);
    if o.slab == b && o.index < OBJ_COUNT {
      assert r.chain[b][o.index] == o.index;
    }
  }

  lemma NewSlabCounts(c: Cache, b: nat)
    requires SlabsOk(c) && b !in c.slabs && NewSlab(c, b).chain.Keys == NewSlab(c, b).slabs.Keys
    ensures |FreeObjs(NewSlab(c, b))| == |FreeObjs(c)| + OBJ_COUNT
  {
    forall o {
      NewSlabMember(c, b, o);
    }
    SizeOfUnion(FreeObjs(NewSlab(c, b)), FreeObjs(c), ObjsOf(b, OBJ_COUNT));
  }

  lemma SizeOfUnion(u: set<Obj>, a: set<Obj>, b: set<Obj>)
    requires forall o :: o in u <==> o in a || o in b
    requires forall o | o in b :: o !in a
    ensures |u| == |a| + |b|
  {
    assert u == a + b;
  }

  function DropSlab(c: Cache, b: nat): Cache {
    Delist(c, b).(slabs := c.slabs - {b}, chain := c.chain - {b}, freeObjCount := c.freeObjCount - OBJ_COUNT)
  }

  /** Only a slab without any object in client hands or on the local stack is destroyed. */
  lemma DropSlabKeepsInv(c: Cache, b: nat)
    requires Inv(c, {b}) && b in c.slabs && c.slabs[b].usedCount == 0
    ensures Inv(DropSlab(c, b), {})
    ensures forall o | o in c.local || o in c.client :: o.slab != b
  {
    var r := DropSlab(c, b);
    WholeSlabFree(c, b);
    DelistMembers(c, b);
    assert forall o :: InUse(r, o) <==> InUse(c, o);
    forall o | o in c.local || o in c.client
      ensures o.slab != b
    {
      assert InUse(c, o);
    }
    DropSlabCounts(c, b);
  }

  lemma DropSlabCounts(c: Cache, b: nat)
    requires SlabsOk(c) && b in c.slabs && c.slabs[b].usedCount == 0
    ensures |FreeObjs(DropSlab(c, b))| == |FreeObjs(c)| - OBJ_COUNT
  {
    var r := DropSlab(c, b);
    var objs := ObjsOf(b, OBJ_COUNT);
    assert SlabOk(c.slabs[b], c.chain[b]);
    forall o
      ensures o in FreeObjs(c) <==> o in FreeObjs(r) || o in objs
      ensures o in objs ==> o !in FreeObjs(r)
    {
      FreeObjMember(r, o);
      FreeObjMember(c, o);
      if o in objs {
        AllBelow(c.chain[b], OBJ_COUNT, o.index);
      }
    }
    assert FreeObjs(c) == FreeObjs(r) + objs;
  }

  // ----- Handing out and taking back (src/memory/slab.c:208-209 and 224) -----

  function HandOut(c: Cache): Cache
    requires c.local != []
  {
    var n := |c.local| - 1;
    c.(local := c.local[..n], client := c.client + {c.local[n]})
  }

  lemma HandOutKeepsInv(c: Cache)
    requires Inv(c, {}) && c.local != []
    ensures Inv(HandOut(c), {})
    ensures var o := c.local[|c.local| - 1]; o !in c.client && InUse(c, o)
  {
    var r := HandOut(c);
    var o := c.local[|c.local| - 1];
    assert o in c.local;
    assert c.local == r.local + [o];
    assert forall x :: InUse(r, x) <==> InUse(c, x);
    assert forall x :: x in c.local <==> x in r.local || x == o;
    assert FreeObjs(r) == FreeObjs(c);
  }

  function TakeBack(c: Cache, o: Obj): Cache {
    c.(local := c.local + [o], client := c.client - {o})
  }

  lemma TakeBackKeepsInv(c: Cache, o: Obj)
    requires Inv(c, {}) && o in c.client
    ensures Inv(TakeBack(c, o), {})
  {
    var r := TakeBack(c, o);
    assert forall x :: InUse(r, x) <==> InUse(c, x);
    assert FreeObjs(r) == FreeObjs(c);
  }

  // ----- Flushing the local stack (src/memory/slab.c:176-197) -----

  /** The top of the local stack can go back to its slab. */
  predicate CanFlush(c: Cache) {
    && c.local != []
    && var o := c.local[|c.local| - 1];
       InUse(c, o) && c.slabs[o.slab].usedCount > 0 && o.index < |c.slabs[o.slab].desc|
  }

  /** One round of `flushLocalCache`: an unused slab is destroyed if enough objects are free without it. */
  function FlushOne(c: Cache): Cache
    requires CanFlush(c)
  {
    var o := c.local[|c.local| - 1];
    Settle(GiveBack(c, o), o.slab)
  }

  /** Where a slab goes after it got an object back. */
  function Settle(c: Cache, b: nat): Cache
    requires b in c.slabs
  {
    if c.slabs[b].usedCount > 0 then MoveTo(c, b, OnPartial)
    else if c.freeObjCount > FREE_LIMIT then DropSlab(c, b)
    else MoveTo(c, b, OnFree)
  }

  lemma SettleKeepsInv(c: Cache, b: nat)
    requires Inv(c, {b}) && b in c.slabs && c.slabs[b].usedCount < OBJ_COUNT
    ensures Inv(Settle(c, b), {})
    ensures var r := Settle(c, b); r.local == c.local && r.client == c.client && r.slabs.Keys <= c.slabs.Keys
  {
    if c.slabs[b].usedCount > 0 {
      MoveKeepsInv(c, b, OnPartial);
    } else if c.freeObjCount > FREE_LIMIT {
      DropSlabKeepsInv(c, b);
    } else {
      LimitKeepsOneFree(c, b);
      MoveKeepsInv(c, b, OnFree);
    }
  }

  lemma InvBut(c: Cache, b: nat)
    requires Inv(c, {})
    ensures Inv(c, {b})
  {
  }

  lemma FlushOneKeepsInv(c: Cache)
    requires Inv(c, {}) && c.local != []
    ensures CanFlush(c) && Inv(FlushOne(c), {})
    ensures var r := FlushOne(c);
            r.local == c.local[..|c.local| - 1] && r.client == c.client && r.slabs.Keys <= c.slabs.Keys
  {
    var o := c.local[|c.local| - 1];
    InvBut(c, o.slab);
    GiveKeepsInv(c, o);
    assert SlabOk(c.slabs[o.slab], c.chain[o.slab]);
    SettleKeepsInv(GiveBack(c, o), o.slab);
  }

  /** A round destroys the slab that the object goes back to exactly if this was its last object in use and
      288 objects were free already. */
  lemma FlushOneDestroysIff(c: Cache)
    requires CanFlush(c)
    ensures var b, r := c.local[|c.local| - 1].slab, FlushOne(c);
            if c.slabs[b].usedCount == 1 && c.freeObjCount >= 288
            then r.slabs.Keys == c.slabs.Keys - {b} && r.freeObjCount == c.freeObjCount + 1 - 256
            else r.slabs.Keys == c.slabs.Keys && r.freeObjCount == c.freeObjCount + 1
  {
    var o := c.local[|c.local| - 1];
    assert GiveBack(c, o).slabs.Keys == c.slabs.Keys;
  }

  /** The slab an object was flushed to comes first on its list, if it was not destroyed. */
  lemma FlushedSlabFirst(c: Cache)
    requires CanFlush(c) && |FlushOne(c).slabFree| <= 1
    ensures var b, r := c.local[|c.local| - 1].slab, FlushOne(c);
            b in r.slabs ==> if r.slabs[b].usedCount > 0 then r.slabPartial != [] && r.slabPartial[0] == b else r.slabFree == [b]
  {
    var o := c.local[|c.local| - 1];
    assert o.slab !in DropSlab(GiveBack(c, o), o.slab).slabs;
  }

  /** And the object comes first on the chain of its slab: taking it again undoes the flush there. */
  lemma FlushedObjectFirst(c: Cache)
    requires CanFlush(c)
    ensures var b, r := c.local[|c.local| - 1].slab, FlushOne(c);
            b in r.slabs ==> CanTake(r, b) && TakeObj(r, b).local == c.local && TakeObj(r, b).chain[b] == c.chain[b]
  {
    var o, r := c.local[|c.local| - 1], FlushOne(c);
    if o.slab in r.slabs {
      assert r.chain[o.slab] == [o.index] + c.chain[o.slab];
      assert c.local == r.local + [o];
    }
  }

  /** The object flushed last is the first one a refill takes again. */
  lemma LastInFirstOut(c: Cache)
    requires Inv(c, {}) && c.local != []
    ensures CanFlush(c)
    ensures var b, r := c.local[|c.local| - 1].slab, FlushOne(c);
            b in r.slabs ==>
              && (if r.slabs[b].usedCount > 0 then r.slabPartial != [] && r.slabPartial[0] == b else r.slabFree == [b])
              && CanTake(r, b) && TakeObj(r, b).local == c.local && TakeObj(r, b).chain[b] == c.chain[b]
  {
    FlushOneKeepsInv(c);
    FlushedSlabFirst(c);
    FlushedObjectFirst(c);
  }

  /** After `n` rounds of `flushLocalCache` the top `n` objects of the stack are free, and slabs
      have only been destroyed because many objects were free. */
  ghost predicate Flushed(c: Cache, r: Cache, n: nat) {
    && n <= |c.local| && r.local == c.local[..|c.local| - n] && r.client == c.client
    && r.slabs.Keys <= c.slabs.Keys
    && (r.slabs.Keys == c.slabs.Keys || r.freeObjCount > 32)
  }

  lemma FlushStep(c: Cache, r: Cache, n: nat)
    requires Flushed(c, r, n) && Inv(r, {}) && n < |c.local|
    ensures CanFlush(r) && Inv(FlushOne(r), {}) && Flushed(c, FlushOne(r), n + 1)
    ensures r.local[|r.local| - 1] == c.local[|c.local| - 1 - n]
  {
    FlushOneKeepsInv(r);
    FlushOneDestroysIff(r);
    PrefixOfPrefix(c.local, |c.local| - n);
  }

  lemma PrefixOfPrefix<T>(s: seq<T>, n: nat)
    requires 0 < n <= |s|
    ensures s[..n][..n - 1] == s[..n - 1] && s[..n][n - 1] == s[n - 1]
  {
  }

  /** What `freeByCache` does before the object goes on the local stack. */
  ghost predicate RoomMade(c: Cache, r: Cache) {
    if |c.local| == LIMIT then Flushed(c, r, BATCH) else r == c
  }

  /** `freeByCache` as a whole. */
  ghost predicate GaveBack(c: Cache, r: Cache, o: Obj) {
    exists m :: RoomMade(c, m) && r == TakeBack(m, o)
  }

  /** The object is on top of the stack, of which a full one, with 80 objects, lost 16. */
  lemma GaveBackOnTop(c: Cache, r: Cache, o: Obj)
    requires GaveBack(c, r, o) && |c.local| <= 80
    ensures r.client == c.client - {o}
    ensures r.local == c.local[..if |c.local| == 80 then 64 else |c.local|] + [o]
    ensures |c.local| < 80 ==> r.slabs == c.slabs && r.freeObjCount == c.freeObjCount
  {
    var m :| RoomMade(c, m) && r == TakeBack(m, o);
  }
}
