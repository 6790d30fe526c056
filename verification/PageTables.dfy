/** The four-level page tables of src/memory/paging.c: tables that are made when they are first
    needed, and why the rest of the model may keep the entries of an address space in one map. */
module PageTables {
  import opened Sets
  import opened Walk
  import W = Walk

  const ENTRIES: nat := 512

  /** An entry: the table or the page it leads to, and the R/W bit. */
  datatype Entry = Absent | Present(page: nat, write: bool)

  /** Where a table belongs: level 3 is the PML4 table `root`, level 0 holds the pages. Tables of one level
      are numbered by the pages they cover. */
  datatype Place = Place(root: nat, level: nat, prefix: nat)

  /** Tables by the page they occupy, with the reference counts of these pages; `at` finds the table of a place. */
  datatype State = State(tables: map<nat, seq<Entry>>, count: map<nat, int>, at: map<Place, nat>)

  function Child(pl: Place, i: nat): Place
    requires pl.level > 0
  {
    Place(pl.root, pl.level - 1, pl.prefix * ENTRIES + i)
  }

  function Parent(pl: Place): Place {
    Place(pl.root, pl.level + 1, pl.prefix / ENTRIES)
  }

  function PresentIn(entries: seq<Entry>): (n: nat) {
    if entries == [] then 0
    else PresentIn(entries[..|entries| - 1]) + if entries[|entries| - 1].Present? then 1 else 0
  }

  /** Entry `i` of the table at `pl` leads to the table of the place below it, if there is one. */
  ghost predicate EntryOk(s: State, pl: Place, i: nat)
    requires pl in s.at && s.at[pl] in s.tables && |s.tables[s.at[pl]]| == ENTRIES && pl.level > 0 && i < ENTRIES
  {
    s.tables[s.at[pl]][i] == if Child(pl, i) in s.at then Present(s.at[Child(pl, i)], true) else Absent
  }

  /** Every table is at one place, below the table of its parent place. */
  ghost predicate PlacesOk(s: State) {
    && (forall pl {:trigger s.at[pl]} | pl in s.at :: s.at[pl] in s.tables && pl.level <= 3)
    && (forall pl, ql {:trigger s.at[pl], s.at[ql]} | pl in s.at && ql in s.at && s.at[pl] == s.at[ql] :: pl == ql)
    && (forall pl {:trigger Parent(pl)} | pl in s.at && pl.level < 3 :: Parent(pl) in s.at)
    && (forall pl {:trigger s.at[pl]} | pl in s.at && pl.level == 3 :: pl.prefix == 0 && s.at[pl] == pl.root)
  }

  /** A table has 512 entries; its page is referenced once for its allocation and once for each entry. */
  ghost predicate TablesOk(s: State) {
    && s.count.Keys == s.tables.Keys
    && forall t {:trigger s.tables[t]} | t in s.tables :: |s.tables[t]| == ENTRIES && s.count[t] == 1 + PresentIn(s.tables[t])
  }

  ghost predicate Wf(s: State) {
    && TablesOk(s) && PlacesOk(s)
    && forall pl, i {:trigger EntryOk(s, pl, i)} | pl in s.at && pl.level > 0 && 0 <= i < ENTRIES :: EntryOk(s, pl, i)
  }

  /** The entry of page `p` in the address space of `root`. */
  ghost function Leaf(s: State, root: nat, p: nat): Entry
    requires Wf(s)
  {
    var pl := Place(root, 0, p / ENTRIES);
    if pl in s.at then s.tables[s.at[pl]][p % ENTRIES] else Absent
  }

  // ----- What the processor does -----

  function Fetch(tables: map<nat, seq<Entry>>, t: nat, i: nat): Entry {
    if t in tables && i < |tables[t]| then tables[t][i] else Absent
  }

  /** From the PML4 table through all levels. */
  function Translate(tables: map<nat, seq<Entry>>, root: nat, p: nat): Entry {
    var e3 := Fetch(tables, root, D3(p));
    var e2 := if e3.Present? then Fetch(tables, e3.page, D2(p)) else Absent;
    var e1 := if e2.Present? then Fetch(tables, e2.page, D1(p)) else Absent;
    if e1.Present? then Fetch(tables, e1.page, D0(p)) else Absent
  }

  lemma Below(s: State, pl: Place, i: nat)
    requires Wf(s) && pl in s.at && pl.level > 0 && i < ENTRIES
    ensures Fetch(s.tables, s.at[pl], i) == if Child(pl, i) in s.at then Present(s.at[Child(pl, i)], true) else Absent
  {
    assert EntryOk(s, pl, i);
  }

  /** A page has a table only if the tables above exist. */
  lemma Above(s: State, root: nat, p: nat)
    requires Wf(s)
    ensures Place(root, 0, p / 512) in s.at ==> Place(root, 1, p / 512 / 512) in s.at
    ensures Place(root, 1, p / 512 / 512) in s.at ==> Place(root, 2, p / 512 / 512 / 512) in s.at
  {
    assert Parent(Place(root, 0, p / 512)) == Place(root, 1, p / 512 / 512);
    assert Parent(Place(root, 1, p / 512 / 512)) == Place(root, 2, p / 512 / 512 / 512);
  }

  /** The walk through four tables finds the entry of the page. */
  lemma TranslateIsLeaf(s: State, root: nat, p: nat)
    requires Wf(s) && Place(root, 3, 0) in s.at && p < U4
    ensures Translate(s.tables, root, p) == Leaf(s, root, p)
  {
    Above(s, root, p);
    var p3, p2, p1 := Place(root, 3, 0), Place(root, 2, p / 512 / 512 / 512), Place(root, 1, p / 512 / 512);
    assert Child(p3, D3(p)) == p2;
    Below(s, p3, D3(p));
    if p2 in s.at {
      assert Child(p2, D2(p)) == p1;
      Below(s, p2, D2(p));
      if p1 in s.at {
        assert Child(p1, D1(p)) == Place(root, 0, p / 512);
        Below(s, p1, D1(p));
      }
    }
  }

  // ----- Steps -----

  lemma {:induction false} PresentAfterSet(entries: seq<Entry>, i: nat, e: Entry)
    requires i < |entries|
    ensures PresentIn(entries[i := e]) == PresentIn(entries) + (if e.Present? then 1 else 0) - (if entries[i].Present? then 1 else 0)
  {
    var n := |entries| - 1;
    if i < n {
      PresentAfterSet(entries[..n], i, e);
      assert entries[i := e][..n] == entries[..n][i := e];
    } else {
      assert entries[i := e][..n] == entries[..n];
    }
  }

  function NoEntries(n: nat): (z: seq<Entry>)
    ensures |z| == n && PresentIn(z) == 0 && forall i | 0 <= i < n :: z[i] == Absent
  {
    if n == 0 then [] else
      var z := NoEntries(n - 1);
      assert (z + [Absent])[..n - 1] == z;
      z + [Absent]
  }

  /** Only the entry of one page of one address space is different. */
  ghost predicate LeafSet(s: State, r: State, root: nat, p: nat, e: Entry)
    requires Wf(s) && Wf(r)
  {
    forall q: nat, i: nat {:trigger Leaf(r, q, i)} {:trigger Leaf(s, q, i)} ::
      Leaf(r, q, i) == if q == root && i == p then e else Leaf(s, q, i)
  }

  ghost predicate SameLeaves(s: State, r: State)
    requires Wf(s) && Wf(r)
  {
    forall q: nat, i: nat {:trigger Leaf(r, q, i)} {:trigger Leaf(s, q, i)} :: Leaf(r, q, i) == Leaf(s, q, i)
  }

  /** Entry `i` of the table on page `t` is set, and the page's references follow. */
  function Put(s: State, t: nat, i: nat, e: Entry): State
    requires t in s.tables && t in s.count && i < |s.tables[t]|
  {
    var was := s.tables[t][i];
    s.(tables := s.tables[t := s.tables[t][i := e]],
       count := s.count[t := s.count[t] + (if e.Present? then 1 else 0) - (if was.Present? then 1 else 0)])
  }

  lemma PutSame(s: State, t: nat, i: nat)
    requires t in s.tables && t in s.count && i < |s.tables[t]|
    ensures Put(s, t, i, s.tables[t][i]) == s
  {
    assert s.tables[t][i := s.tables[t][i]] == s.tables[t];
    assert s.tables[t := s.tables[t]] == s.tables && s.count[t := s.count[t]] == s.count;
  }

  lemma PutKeepsTables(s: State, t: nat, i: nat, e: Entry)
    requires TablesOk(s) && t in s.tables && i < ENTRIES
    ensures TablesOk(Put(s, t, i, e))
  {
    PresentAfterSet(s.tables[t], i, e);
  }

  lemma PutLeaf(s: State, pl: Place, i: nat, e: Entry) returns (r: State)
    requires Wf(s) && pl in s.at && pl.level == 0 && i < ENTRIES
    ensures r == Put(s, s.at[pl], i, e) && Wf(r) && LeafSet(s, r, pl.root, pl.prefix * ENTRIES + i, e)
  {
    r := Put(s, s.at[pl], i, e);
    PutKeepsTables(s, s.at[pl], i, e);
    forall ql, j | ql in r.at && ql.level > 0 && 0 <= j < ENTRIES
      ensures EntryOk(r, ql, j)
    {
      assert EntryOk(s, ql, j);
    }
    PutSetsLeaf(s, r, pl, i, e);
  }

  lemma PutSetsLeaf(s: State, r: State, pl: Place, i: nat, e: Entry)
    requires Wf(s) && pl in s.at && pl.level == 0 && i < ENTRIES
    requires r == Put(s, s.at[pl], i, e) && Wf(r)
    ensures LeafSet(s, r, pl.root, pl.prefix * ENTRIES + i, e)
  {
    forall q: nat, j: nat
      ensures Leaf(r, q, j) == if q == pl.root && j == pl.prefix * ENTRIES + i then e else Leaf(s, q, j)
    {
      var ql := Place(q, 0, j / ENTRIES);
      if ql == pl {
        Digits(j);
      } else {
        W.Entry(pl.prefix, i);
      }
    }
  }

  lemma Digits(j: nat)
    ensures j == j / ENTRIES * ENTRIES + j % ENTRIES
  {
  }

  /** A fresh table without entries is linked in below `pl`. */
  function Grow(s: State, pl: Place, i: nat, page: nat): State
    requires pl in s.at && s.at[pl] in s.tables && s.at[pl] in s.count && i < |s.tables[s.at[pl]]| && pl.level > 0
    requires page !in s.tables
  {
    var t := s.at[pl];
    State(s.tables[page := NoEntries(ENTRIES)][t := s.tables[t][i := Present(page, true)]],
          s.count[page := 1][t := s.count[t] + 1],
          s.at[Child(pl, i) := page])
  }

  lemma GrowKeepsTables(s: State, pl: Place, i: nat, page: nat)
    requires Wf(s) && pl in s.at && pl.level > 0 && i < ENTRIES && page !in s.tables
    requires s.tables[s.at[pl]][i].Absent?
    ensures TablesOk(Grow(s, pl, i, page))
  {
    PresentAfterSet(s.tables[s.at[pl]], i, Present(page, true));
  }

  lemma GrowKeepsWf(s: State, pl: Place, i: nat, page: nat) returns (r: State)
    requires Wf(s) && pl in s.at && pl.level > 0 && i < ENTRIES && page !in s.tables
    requires s.tables[s.at[pl]][i].Absent?
    ensures r == Grow(s, pl, i, page) && Wf(r) && SameLeaves(s, r) && Child(pl, i) in r.at && GrownFrom(s.at, r.at)
  {
    r := Grow(s, pl, i, page);
    assert EntryOk(s, pl, i);
    GrowKeepsTables(s, pl, i, page);
    GrowKeepsPlaces(s, pl, i, page);
    forall ql, j | ql in r.at && ql.level > 0 && 0 <= j < ENTRIES
      ensures EntryOk(r, ql, j)
    {
      GrowKeepsEntry(s, r, pl, i, page, ql, j);
    }
    GrowKeepsLeaves(s, r, pl, i, page);
  }

  lemma GrowKeepsPlaces(s: State, pl: Place, i: nat, page: nat)
    requires Wf(s) && pl in s.at && pl.level > 0 && i < ENTRIES && page !in s.tables && Child(pl, i) !in s.at
    ensures PlacesOk(Grow(s, pl, i, page))
  {
    var r := Grow(s, pl, i, page);
    W.Entry(pl.prefix, i);
    assert Parent(Child(pl, i)) == pl;
    forall ql | ql in r.at && ql.level < 3
      ensures Parent(ql) in r.at
    {
    }
  }

  lemma GrowKeepsEntry(s: State, r: State, pl: Place, i: nat, page: nat, ql: Place, j: nat)
    requires Wf(s) && pl in s.at && pl.level > 0 && i < ENTRIES && page !in s.tables && Child(pl, i) !in s.at
    requires r == Grow(s, pl, i, page) && TablesOk(r) && PlacesOk(r)
    requires ql in r.at && ql.level > 0 && j < ENTRIES
    ensures EntryOk(r, ql, j)
  {
    var below := Child(pl, i);
    W.Entry(pl.prefix, i);
    W.Entry(ql.prefix, j);
    if ql == below {
      NothingBelow(s, below, j);
    } else {
      assert EntryOk(s, ql, j);
      assert Child(ql, j) == below ==> ql == pl && j == i;
    }
  }

  lemma NothingBelow(s: State, pl: Place, j: nat)
    requires Wf(s) && pl !in s.at && pl.level > 0 && pl.level <= 3 && j < ENTRIES
    ensures Child(pl, j) !in s.at
  {
    W.Entry(pl.prefix, j);
    assert Parent(Child(pl, j)) == pl;
  }

  lemma GrowKeepsLeaves(s: State, r: State, pl: Place, i: nat, page: nat)
    requires Wf(s) && pl in s.at && pl.level > 0 && i < ENTRIES && page !in s.tables && Child(pl, i) !in s.at
    requires r == Grow(s, pl, i, page) && Wf(r)
    ensures SameLeaves(s, r)
  {
    forall q: nat, j: nat
      ensures Leaf(r, q, j) == Leaf(s, q, j)
    {
      var ql := Place(q, 0, j / ENTRIES);
      if ql in s.at {
        assert s.at[ql] != s.at[pl];
      }
    }
  }

  ghost predicate GrownFrom(a: map<Place, nat>, b: map<Place, nat>) {
    forall pl {:trigger pl in a} | pl in a :: pl in b && b[pl] == a[pl]
  }

  /** Every table belongs to a PML4 table. */
  lemma RootOf(s: State, pl: Place)
    requires Wf(s) && pl in s.at
    ensures Place(pl.root, 3, 0) in s.at && pl.root in s.tables
    decreases 3 - pl.level
  {
    if pl.level < 3 {
      RootOf(s, Parent(pl));
    } else {
      assert s.at[pl] == pl.root;
    }
  }

  /** An address space without tables below its PML4 table. */
  function AddRoot(s: State, root: nat): State {
    State(s.tables[root := NoEntries(ENTRIES)], s.count[root := 1], s.at[Place(root, 3, 0) := root])
  }

  lemma AddRootKeepsWf(s: State, root: nat) returns (r: State)
    requires Wf(s) && root !in s.tables
    ensures r == AddRoot(s, root) && Wf(r) && SameLeaves(s, r) && GrownFrom(s.at, r.at)
    ensures forall p: nat :: Leaf(r, root, p) == Absent
  {
    r := AddRoot(s, root);
    AddRootKeepsPlaces(s, root);
    forall pl, i | pl in r.at && pl.level > 0 && 0 <= i < ENTRIES
      ensures EntryOk(r, pl, i)
    {
      if pl in s.at {
        assert EntryOk(s, pl, i);
      }
    }
  }

  lemma AddRootKeepsPlaces(s: State, root: nat)
    requires Wf(s) && root !in s.tables
    ensures PlacesOk(AddRoot(s, root)) && TablesOk(AddRoot(s, root)) && forall pl | pl in s.at :: pl.root != root
  {
    forall pl | pl in s.at
      ensures pl.root != root
    {
      RootOf(s, pl);
    }
  }

  lemma PathPlaces(root: nat, q: nat)
    requires q < U3
    ensures q / 512 / 512 < ENTRIES && Child(Place(root, 3, 0), q / 512 / 512) == Place(root, 2, q / 512 / 512)
    ensures Child(Place(root, 2, q / 512 / 512), q / 512 % 512) == Place(root, 1, q / 512)
    ensures Child(Place(root, 1, q / 512), q % 512) == Place(root, 0, q)
  {
  }

  // ----- Fork -----

  /** What fork makes of entry `p` of address space `q`. */
  ghost function ShareOf(s: State, parent: nat, child: nat, q: nat, p: nat): Entry
    requires Wf(s)
  {
    var e := Leaf(s, parent, p);
    if (q == parent || q == child) && e.Present? then Present(e.page, false) else Leaf(s, q, p)
  }

  /** The pages below `cur` that the loops reach are shared, the others are as they were in `s0`. */
  ghost predicate Forked(s0: State, s: State, parent: nat, child: nat, start: nat, end: nat, cur: int)
    requires Wf(s0) && Wf(s)
  {
    forall q: nat, p: nat {:trigger Leaf(s, q, p)} {:trigger Leaf(s0, q, p)} ::
      Leaf(s, q, p) == if p < cur && Reached(start, end, p) then ShareOf(s0, parent, child, q, p) else Leaf(s0, q, p)
  }

  lemma ForkedSkip(s0: State, s: State, parent: nat, child: nat, start: nat, end: nat, cur: int, next: int)
    requires Wf(s0) && Wf(s) && Forked(s0, s, parent, child, start, end, cur) && cur <= next
    requires forall p: nat | cur <= p < next && Reached(start, end, p) :: Leaf(s0, parent, p) == Absent
    ensures Forked(s0, s, parent, child, start, end, next)
  {
    forall q: nat, p: nat
      ensures Leaf(s, q, p) == if p < next && Reached(start, end, p) then ShareOf(s0, parent, child, q, p) else Leaf(s0, q, p)
    {
    }
  }

  /** Entry `p` is shared and nothing else changes. */
  ghost predicate SharedAt(s: State, r: State, parent: nat, child: nat, p: nat)
    requires Wf(s) && Wf(r)
  {
    forall q: nat, i: nat {:trigger Leaf(r, q, i)} {:trigger Leaf(s, q, i)} ::
      Leaf(r, q, i) == if i == p then ShareOf(s, parent, child, q, p) else Leaf(s, q, i)
  }

  lemma ForkedOne(s0: State, s: State, r: State, parent: nat, child: nat, start: nat, end: nat, p: nat)
    requires Wf(s0) && Wf(s) && Wf(r) && Forked(s0, s, parent, child, start, end, p)
    requires SharedAt(s, r, parent, child, p) && Reached(start, end, p)
    ensures Forked(s0, r, parent, child, start, end, p + 1)
  {
    assert Leaf(s, parent, p) == Leaf(s0, parent, p);
    forall q: nat, i: nat
      ensures Leaf(r, q, i) == if i < p + 1 && Reached(start, end, i) then ShareOf(s0, parent, child, q, i) else Leaf(s0, q, i)
    {
      assert Leaf(s, q, p) == Leaf(s0, q, p);
    }
  }

  // Pages below a table that does not exist are absent.

  lemma SkipTable(s0: State, s: State, parent: nat, child: nat, start: nat, end: nat, q: nat)
    requires Wf(s0) && Wf(s) && Forked(s0, s, parent, child, start, end, q * U1) && Place(parent, 0, q) !in s.at
    ensures Forked(s0, s, parent, child, start, end, (q + 1) * U1)
  {
    forall p: nat | q * U1 <= p < (q + 1) * U1
      ensures Leaf(s0, parent, p) == Absent
    {
      assert Leaf(s, parent, p) == Leaf(s0, parent, p) && p / ENTRIES == q;
    }
    ForkedSkip(s0, s, parent, child, start, end, q * U1, (q + 1) * U1);
  }

  lemma SkipDirectory(s0: State, s: State, parent: nat, child: nat, start: nat, end: nat, r: nat)
    requires Wf(s0) && Wf(s) && Forked(s0, s, parent, child, start, end, r * U2) && Place(parent, 1, r) !in s.at
    ensures Forked(s0, s, parent, child, start, end, (r + 1) * U2)
  {
    forall p: nat | r * U2 <= p < (r + 1) * U2
      ensures Leaf(s0, parent, p) == Absent
    {
      Above(s, parent, p);
      assert Leaf(s, parent, p) == Leaf(s0, parent, p) && p / 512 / 512 == r;
    }
    ForkedSkip(s0, s, parent, child, start, end, r * U2, (r + 1) * U2);
  }

  lemma SkipUpper(s0: State, s: State, parent: nat, child: nat, start: nat, end: nat, a: nat)
    requires Wf(s0) && Wf(s) && Forked(s0, s, parent, child, start, end, a * U3) && Place(parent, 2, a) !in s.at
    ensures Forked(s0, s, parent, child, start, end, (a + 1) * U3)
  {
    forall p: nat | a * U3 <= p < (a + 1) * U3
      ensures Leaf(s0, parent, p) == Absent
    {
      Above(s, parent, p);
      assert Leaf(s, parent, p) == Leaf(s0, parent, p) && p / 512 / 512 / 512 == a;
    }
    ForkedSkip(s0, s, parent, child, start, end, a * U3, (a + 1) * U3);
  }

  /** Both address spaces have entry `e` for page `p`, nothing else is different. */
  ghost predicate BothSet(s: State, r: State, parent: nat, child: nat, p: nat, e: Entry)
    requires Wf(s) && Wf(r)
  {
    forall q: nat, i: nat {:trigger Leaf(r, q, i)} {:trigger Leaf(s, q, i)} ::
      Leaf(r, q, i) == if i == p && (q == parent || q == child) then e else Leaf(s, q, i)
  }

  function With(e: Entry, write: bool): Entry {
    if e.Present? then Present(e.page, write) else e
  }

  lemma TwoSets(s: State, s1: State, r: State, parent: nat, child: nat, p: nat, e: Entry)
    requires Wf(s) && Wf(s1) && Wf(r) && LeafSet(s, s1, child, p, e) && LeafSet(s1, r, parent, p, e)
    ensures BothSet(s, r, parent, child, p, e)
  {
    forall q: nat, i: nat
      ensures Leaf(r, q, i) == if i == p && (q == parent || q == child) then e else Leaf(s, q, i)
    {
      assert Leaf(s1, q, i) == (if q == child && i == p then e else Leaf(s, q, i));
    }
  }

  lemma NothingToShare(s: State, parent: nat, child: nat, p: nat)
    requires Wf(s) && Leaf(s, parent, p).Absent?
    ensures SharedAt(s, s, parent, child, p)
  {
  }

  lemma SharedAfter(s: State, s1: State, r: State, parent: nat, child: nat, p: nat, page: nat)
    requires Wf(s) && Wf(s1) && Wf(r) && SameLeaves(s, s1) && BothSet(s1, r, parent, child, p, Present(page, false))
    requires Leaf(s, parent, p).Present? && Leaf(s, parent, p).page == page
    ensures SharedAt(s, r, parent, child, p)
  {
    forall q: nat, i: nat
      ensures Leaf(r, q, i) == if i == p then ShareOf(s, parent, child, q, p) else Leaf(s, q, i)
    {
      assert Leaf(s1, q, i) == Leaf(s, q, i);
    }
  }

  /** A table pointer, null at first. */
  datatype Table = NoTable | At(page: nat)

  class PageTables {
    var tables: map<nat, seq<Entry>>
    var count: map<nat, int>
    ghost var at: map<Place, nat>

    ghost function Now(): State
      reads this
    {
      State(tables, count, at)
    }

    ghost predicate Ok()
      reads this
    {
      Wf(Now())
    }

    ghost predicate IsAt(pl: Place, table: nat)
      reads this
    {
      pl in at && at[pl] == table
    }

    /** A pointer that is not null leads to the table of this place. */
    ghost predicate Held(pl: Place, t: Table)
      reads this
    {
      t.At? ==> IsAt(pl, t.page)
    }

    constructor ()
      ensures Ok() && at == map[]
    {
      tables, count, at := map[], map[], map[];
    }

    // ----- Single tables -----

    /** `allocPages(0)` for a table: some page that holds none. */
    method UnusedPage() returns (page: nat)
      ensures page !in tables
    {
      FreshExists(tables.Keys);
      page :| page !in tables;
    }

    /** `allocPML4E`, the user half. */
    method AllocPML4E() returns (ret: nat)
      requires Ok()
      modifies this
      ensures Ok() && SameLeaves(old(Now()), Now()) && GrownFrom(old(at), at)
      ensures ret !in old(tables) && IsAt(Place(ret, 3, 0), ret) && forall p: nat :: Leaf(Now(), ret, p) == Absent
    {
      ret := UnusedPage();
      ghost var r := AddRootKeepsWf(Now(), ret);
      tables, count, at := tables[ret := NoEntries(ENTRIES)], count[ret := 1], at[Place(ret, 3, 0) := ret];
      assert Now() == r;
    }

    /** `getPDPTE`, `getPDE` and `getPTE`. */
    method Get(ghost pl: Place, table: nat, nr: nat) returns (t: Table)
      requires Ok() && IsAt(pl, table) && pl.level > 0 && nr < ENTRIES
      ensures t == if Child(pl, nr) in at then At(at[Child(pl, nr)]) else NoTable
    {
      assert EntryOk(Now(), pl, nr);
      var data := tables[table][nr];
      t := if data.Present? then At(data.page) else NoTable;
    }

    /** `allocPDPTE`, `allocPDE` and `allocPTE`: the table is made if there is none. */
    method Alloc(ghost pl: Place, table: nat, nr: nat) returns (ret: nat)
      requires Ok() && IsAt(pl, table) && pl.level > 0 && nr < ENTRIES
      modifies this
      ensures Ok() && SameLeaves(old(Now()), Now()) && GrownFrom(old(at), at) && IsAt(Child(pl, nr), ret)
    {
      assert EntryOk(Now(), pl, nr);
      var data := tables[table][nr];
      if data.Present? {
        return data.page;
      }
      ret := UnusedPage();
      ghost var r := GrowKeepsWf(Now(), pl, nr, ret);
      Link(pl, table, nr, ret);
      assert Now() == r;
    }

    /** A zeroed table is linked into another one. */
    method Link(ghost pl: Place, table: nat, nr: nat, page: nat)
      requires IsAt(pl, table) && table in tables && table in count && nr < |tables[table]| && pl.level > 0 && page !in tables
      modifies this
      ensures Now() == Grow(old(Now()), pl, nr, page)
    {
      tables, count := tables[page := NoEntries(ENTRIES)], count[page := 1];
      tables, count := tables[table := tables[table][nr := Present(page, true)]], count[table := count[table] + 1];
      at := at[Child(pl, nr) := page];
    }

    /** `setPTEEntry`. */
    method SetPTEEntry(ghost pl: Place, pte: nat, nr: nat, page: nat)
      requires Ok() && IsAt(pl, pte) && pl.level == 0 && nr < ENTRIES
      modifies this
      ensures Ok() && at == old(at)
      ensures LeafSet(old(Now()), Now(), pl.root, pl.prefix * ENTRIES + nr, Present(page, true))
    {
      ghost var r := PutLeaf(Now(), pl, nr, Present(page, true));
      var data := tables[pte][nr];
      tables := tables[pte := tables[pte][nr := Present(page, true)]];
      if data.Absent? {
        count := count[pte := count[pte] + 1];
      }
      assert count == r.count;
      assert Now() == r;
    }

    /** `setPTEEntryAttribute`. */
    method SetPTEEntryAttribute(ghost pl: Place, pte: nat, nr: nat, write: bool)
      requires Ok() && IsAt(pl, pte) && pl.level == 0 && nr < ENTRIES
      modifies this
      ensures Ok() && at == old(at)
      ensures var p := pl.prefix * ENTRIES + nr; LeafSet(old(Now()), Now(), pl.root, p, With(old(Leaf(Now(), pl.root, p)), write))
    {
      W.Entry(pl.prefix, nr);
      var data := tables[pte][nr];
      ghost var r := PutLeaf(Now(), pl, nr, With(data, write));
      if data.Present? {
        tables := tables[pte := tables[pte][nr := Present(data.page, write)]];
        assert count == r.count;
      } else {
        PutSame(Now(), pte, nr);
      }
      assert Now() == r;
    }

    /** `clearPTEEntry`: the page of the table keeps the reference of its allocation, so the code never goes on
        to give tables back. */
    method ClearPTEEntry(ghost pl: Place, pte: nat, nr: nat) returns (retval: int)
      requires Ok() && IsAt(pl, pte) && pl.level == 0 && nr < ENTRIES
      modifies this
      ensures Ok() && at == old(at) && tables.Keys == old(tables.Keys) && count[pte] > 0
      ensures retval == if old(tables[pte][nr]).Present? then 0 else -2
      ensures LeafSet(old(Now()), Now(), pl.root, pl.prefix * ENTRIES + nr, Absent)
    {
      ghost var r := PutLeaf(Now(), pl, nr, Absent);
      if tables[pte][nr].Absent? {
        PutSame(Now(), pte, nr);
        return -ENOENT;
      }
      tables := tables[pte := tables[pte][nr := Absent]];
      count := count[pte := count[pte] - 1];
      assert Now() == r;
      retval := 0;
    }

    // ----- Paths -----

    /** The tables of page table number `q` below `root`, as far as the pointers are null. */
    method AllocPath(root: nat, q: nat, pdpte0: Table, pde0: Table, pte0: Table) returns (pdpte: Table, pde: Table, pte: Table)
      requires Ok() && IsAt(Place(root, 3, 0), root) && q < U3
      requires Held(Place(root, 2, q / 512 / 512), pdpte0) && Held(Place(root, 1, q / 512), pde0) && Held(Place(root, 0, q), pte0)
      modifies this
      ensures Ok() && SameLeaves(old(Now()), Now()) && GrownFrom(old(at), at) && pdpte.At? && pde.At? && pte.At?
      ensures Held(Place(root, 2, q / 512 / 512), pdpte) && Held(Place(root, 1, q / 512), pde) && Held(Place(root, 0, q), pte)
    {
      PathPlaces(root, q);
      pdpte := AllocIfNull(Place(root, 3, 0), root, q / 512 / 512, pdpte0);
      pde := AllocIfNull(Place(root, 2, q / 512 / 512), pdpte.page, q / 512 % 512, pde0);
      pte := AllocIfNull(Place(root, 1, q / 512), pde.page, q % 512, pte0);
    }

    method AllocIfNull(ghost pl: Place, table: nat, nr: nat, t0: Table) returns (t: Table)
      requires Ok() && IsAt(pl, table) && pl.level > 0 && nr < ENTRIES && Held(Child(pl, nr), t0)
      modifies this
      ensures Ok() && SameLeaves(old(Now()), Now()) && GrownFrom(old(at), at) && t.At? && Held(Child(pl, nr), t)
    {
      t := t0;
      if t.NoTable? {
        var ret := Alloc(pl, table, nr);
        t := At(ret);
      }
    }

    /** The faults that map a page: all tables on the way exist afterwards. */
    method MapPage(pml4e: nat, p: nat, page: nat)
      requires Ok() && IsAt(Place(pml4e, 3, 0), pml4e) && p < U4
      modifies this
      ensures Ok() && LeafSet(old(Now()), Now(), pml4e, p, Present(page, true))
    {
      var pdpte, pde, pte := AllocPath(pml4e, p / 512, NoTable, NoTable, NoTable);
      Digits(p);
      SetPTEEntry(Place(pml4e, 0, p / 512), pte.page, p % 512, page);
    }

    // ----- Fork: the loops of `taskForkMemory` over one area -----

    ghost predicate HeldPath(root: nat, q: nat, pdpte: Table, pde: Table, pte: Table)
      reads this
    {
      Held(Place(root, 2, q / 512 / 512), pdpte) && Held(Place(root, 1, q / 512), pde) && Held(Place(root, 0, q), pte)
    }

    /** The calls of `setPTEEntry` in the innermost loop. */
    method SetBoth(ghost parent: nat, opte: nat, ghost child: nat, pte: nat, ghost q: nat, nr: nat, page: nat)
      requires Ok() && parent != child && IsAt(Place(parent, 0, q), opte) && IsAt(Place(child, 0, q), pte) && nr < ENTRIES
      modifies this
      ensures Ok() && at == old(at) && BothSet(old(Now()), Now(), parent, child, q * ENTRIES + nr, Present(page, true))
    {
      ghost var s := Now();
      SetPTEEntry(Place(child, 0, q), pte, nr, page);
      ghost var s1 := Now();
      SetPTEEntry(Place(parent, 0, q), opte, nr, page);
      TwoSets(s, s1, Now(), parent, child, q * ENTRIES + nr, Present(page, true));
    }

    /** Then the R/W bits are cleared. */
    method ProtectBoth(ghost parent: nat, opte: nat, ghost child: nat, pte: nat, ghost q: nat, nr: nat, ghost page: nat)
      requires Ok() && parent != child && IsAt(Place(parent, 0, q), opte) && IsAt(Place(child, 0, q), pte) && nr < ENTRIES
      requires Leaf(Now(), parent, q * ENTRIES + nr) == Leaf(Now(), child, q * ENTRIES + nr) == Present(page, true)
      modifies this
      ensures Ok() && at == old(at) && BothSet(old(Now()), Now(), parent, child, q * ENTRIES + nr, Present(page, false))
    {
      ghost var s := Now();
      SetPTEEntryAttribute(Place(child, 0, q), pte, nr, false);
      ghost var s1 := Now();
      assert Leaf(s1, parent, q * ENTRIES + nr) == Present(page, true);
      SetPTEEntryAttribute(Place(parent, 0, q), opte, nr, false);
      TwoSets(s, s1, Now(), parent, child, q * ENTRIES + nr, Present(page, false));
    }

    /** Both entries are set, and lose the R/W bit. */
    method ShareEntry(ghost parent: nat, opte: nat, ghost child: nat, pte: nat, ghost q: nat, nr: nat, page: nat)
      requires Ok() && parent != child && IsAt(Place(parent, 0, q), opte) && IsAt(Place(child, 0, q), pte) && nr < ENTRIES
      modifies this
      ensures Ok() && at == old(at) && BothSet(old(Now()), Now(), parent, child, q * ENTRIES + nr, Present(page, false))
    {
      SetBoth(parent, opte, child, pte, q, nr, page);
      ProtectBoth(parent, opte, child, pte, q, nr, page);
    }

    /** The body of the loops: tables of the child are made when the first page needs them. */
    method ForkEntry(ghost parent: nat, opte: nat, child: nat, q: nat, nr: nat, pdpte0: Table, pde0: Table, pte0: Table)
        returns (pdpte: Table, pde: Table, pte: Table)
      requires Ok() && parent != child && IsAt(Place(parent, 0, q), opte) && IsAt(Place(child, 3, 0), child)
      requires q < U3 && nr < ENTRIES && HeldPath(child, q, pdpte0, pde0, pte0)
      modifies this
      ensures Ok() && GrownFrom(old(at), at) && HeldPath(child, q, pdpte, pde, pte)
      ensures SharedAt(old(Now()), Now(), parent, child, q * ENTRIES + nr)
    {
      ghost var s := Now();
      W.Entry(q, nr);
      pdpte, pde, pte := pdpte0, pde0, pte0;
      var oentry := tables[opte][nr];
      assert Leaf(s, parent, q * ENTRIES + nr) == oentry;
      if oentry.Absent? {
        NothingToShare(s, parent, child, q * ENTRIES + nr);
        return;
      }
      pdpte, pde, pte := AllocPath(child, q, pdpte, pde, pte);
      ghost var s1 := Now();
      assert IsAt(Place(parent, 0, q), opte);
      ShareEntry(parent, opte, child, pte.page, q, nr, oentry.page);
      SharedAfter(s, s1, Now(), parent, child, q * ENTRIES + nr, oentry.page);
    }

    /** The loops have come to page `cur`. */
    ghost predicate Forking(s0: State, parent: nat, child: nat, start: nat, end: nat, cur: int)
      reads this
    {
      && Wf(s0) && Ok() && parent != child && IsAt(Place(parent, 3, 0), parent) && IsAt(Place(child, 3, 0), child)
      && Forked(s0, Now(), parent, child, start, end, cur)
    }

    /** One page that the loops reach. */
    method ForkNext(ghost s0: State, ghost start: nat, ghost end: nat, ghost parent: nat, opte: nat, child: nat, q: nat, nr: nat,
                    pdpte0: Table, pde0: Table, pte0: Table) returns (pdpte: Table, pde: Table, pte: Table)
      requires Forking(s0, parent, child, start, end, q * ENTRIES + nr) && Reached(start, end, q * ENTRIES + nr)
      requires IsAt(Place(parent, 0, q), opte) && q < U3 && nr < ENTRIES && HeldPath(child, q, pdpte0, pde0, pte0)
      modifies this
      ensures Forking(s0, parent, child, start, end, q * ENTRIES + nr + 1)
      ensures GrownFrom(old(at), at) && HeldPath(child, q, pdpte, pde, pte)
    {
      ghost var s, p := Now(), q * ENTRIES + nr;
      assert Wf(s) && Forked(s0, s, parent, child, start, end, p);
      pdpte, pde, pte := ForkEntry(parent, opte, child, q, nr, pdpte0, pde0, pte0);
      ghost var r := Now();
      assert IsAt(Place(parent, 3, 0), parent) && IsAt(Place(child, 3, 0), child);
      assert Wf(r) && SharedAt(s, r, parent, child, p);
      ForkedOne(s0, s, r, parent, child, start, end, p);
    }

    /** The entries of page table number `q`. */
    method ForkEntries(ghost s0: State, start: nat, end: nat, ghost parent: nat, opte: nat, child: nat, q: nat,
                       pdpte0: Table, pde0: Table) returns (pdpte: Table, pde: Table)
      requires Forking(s0, parent, child, start, end, q * U1) && IsAt(Place(parent, 0, q), opte) && q < U3
      requires q / 512 / 512 >= D3(start) && q / 512 % 512 >= D2(start) && q % 512 >= D1(start)
      requires HeldPath(child, q, pdpte0, pde0, NoTable)
      modifies this
      ensures Forking(s0, parent, child, start, end, (q + 1) * U1)
      ensures GrownFrom(old(at), at) && HeldPath(child, q, pdpte, pde, NoTable)
    {
      var base := q * U1;
      var offset2 := D0(start);
      pdpte, pde := pdpte0, pde0;
      var pte := NoTable;
      W.SkippedEntries(start, end, q);
      ForkedSkip(s0, Now(), parent, child, start, end, base, base + offset2);
      while offset2 < Min(U1, end - base)
        invariant D0(start) <= offset2 <= U1
        invariant Forking(s0, parent, child, start, end, base + offset2)
        invariant GrownFrom(old(at), at) && HeldPath(child, q, pdpte, pde, pte)
        decreases U1 - offset2
      {
        W.Entry(q, offset2);
        pdpte, pde, pte := ForkNext(s0, start, end, parent, opte, child, q, offset2, pdpte, pde, pte);
        offset2 := offset2 + 1;
      }
      ForkedSkip(s0, Now(), parent, child, start, end, base + offset2, base + U1);
    }

    /** Entry `c` of directory number `r`. */
    method ForkTable(ghost s0: State, start: nat, end: nat, ghost parent: nat, opde: nat, child: nat, r: nat, c: nat,
                     pdpte0: Table, pde0: Table) returns (pdpte: Table, pde: Table)
      requires Forking(s0, parent, child, start, end, (r * 512 + c) * U1) && IsAt(Place(parent, 1, r), opde) && r < U2
      requires r / 512 >= D3(start) && r % 512 >= D2(start) && D1(start) <= c < 512
      requires Held(Place(child, 2, r / 512), pdpte0) && Held(Place(child, 1, r), pde0)
      modifies this
      ensures Forking(s0, parent, child, start, end, (r * 512 + c + 1) * U1) && GrownFrom(old(at), at)
      ensures Held(Place(child, 2, r / 512), pdpte) && Held(Place(child, 1, r), pde)
    {
      ghost var q := r * 512 + c;
      W.Entry(r, c);
      assert Child(Place(parent, 1, r), c) == Place(parent, 0, q);
      assert HeldPath(child, q, pdpte0, pde0, NoTable);
      pdpte, pde := pdpte0, pde0;
      var opte := Get(Place(parent, 1, r), opde, c);
      if opte.At? {
        pdpte, pde := ForkEntries(s0, start, end, parent, opte.page, child, r * 512 + c, pdpte0, pde0);
        assert HeldPath(child, q, pdpte, pde, NoTable);
      } else {
        SkipTable(s0, Now(), parent, child, start, end, q);
      }
    }

    /** The page tables of directory number `r`. */
    method ForkTables(ghost s0: State, start: nat, end: nat, ghost parent: nat, opde: nat, child: nat, r: nat, pdpte0: Table)
        returns (pdpte: Table)
      requires Forking(s0, parent, child, start, end, r * U2) && IsAt(Place(parent, 1, r), opde) && r < U2
      requires r / 512 >= D3(start) && r % 512 >= D2(start) && Held(Place(child, 2, r / 512), pdpte0)
      modifies this
      ensures Forking(s0, parent, child, start, end, (r + 1) * U2)
      ensures GrownFrom(old(at), at) && Held(Place(child, 2, r / 512), pdpte)
    {
      var base := r * U2;
      var c := D1(start);
      pdpte := pdpte0;
      var pde := NoTable;
      W.SkippedTables(start, end, r);
      ForkedSkip(s0, Now(), parent, child, start, end, base, base + c * U1);
      while c * U1 < Min(U2, end - base)
        invariant D1(start) <= c <= 512
        invariant Forking(s0, parent, child, start, end, base + c * U1)
        invariant GrownFrom(old(at), at) && Held(Place(child, 2, r / 512), pdpte) && Held(Place(child, 1, r), pde)
        decreases 512 - c
      {
        pdpte, pde := ForkTable(s0, start, end, parent, opde, child, r, c, pdpte, pde);
        c := c + 1;
      }
      ForkedSkip(s0, Now(), parent, child, start, end, base + c * U1, base + U2);
    }

    /** The directories below entry `a` of the PML4 table. */
    method ForkDirectories(ghost s0: State, start: nat, end: nat, ghost parent: nat, opdpte: nat, child: nat, a: nat)
      requires Forking(s0, parent, child, start, end, a * U3) && IsAt(Place(parent, 2, a), opdpte) && a < 512
      requires a >= D3(start)
      modifies this
      ensures Forking(s0, parent, child, start, end, (a + 1) * U3) && GrownFrom(old(at), at)
    {
      var base := a * U3;
      var b := D2(start);
      var pdpte := NoTable;
      W.SkippedDirectories(start, end, a);
      ForkedSkip(s0, Now(), parent, child, start, end, base, base + b * U2);
      while b * U2 < Min(U3, end - base)
        invariant D2(start) <= b <= 512
        invariant Forking(s0, parent, child, start, end, base + b * U2)
        invariant GrownFrom(old(at), at) && Held(Place(child, 2, a), pdpte)
        decreases 512 - b
      {
        W.Entry(a, b);
        var opde := Get(Place(parent, 2, a), opdpte, b);
        if opde.At? {
          pdpte := ForkTables(s0, start, end, parent, opde.page, child, a * 512 + b, pdpte);
        } else {
          SkipDirectory(s0, Now(), parent, child, start, end, a * 512 + b);
        }
        b := b + 1;
      }
      ForkedSkip(s0, Now(), parent, child, start, end, base + b * U2, base + U3);
    }

    /** All four loops: the pages they reach are shared, whatever tables the child had to get for that. */
    method Fork(start: nat, end: nat, parent: nat, child: nat)
      requires Ok() && parent != child && IsAt(Place(parent, 3, 0), parent) && IsAt(Place(child, 3, 0), child)
      modifies this
      ensures Ok() && GrownFrom(old(at), at) && Forked(old(Now()), Now(), parent, child, start, end, U4)
    {
      ghost var s0 := Now();
      var a := D3(start);
      assert Forked(s0, s0, parent, child, start, end, 0);
      ForkedSkip(s0, s0, parent, child, start, end, 0, a * U3);
      while a * U3 < Min(U4, end)
        invariant D3(start) <= a <= 512
        invariant Forking(s0, parent, child, start, end, a * U3) && GrownFrom(old(at), at)
        decreases 512 - a
      {
        var opdpte := Get(Place(parent, 3, 0), parent, a);
        if opdpte.At? {
          ForkDirectories(s0, start, end, parent, opdpte.page, child, a);
        } else {
          SkipUpper(s0, Now(), parent, child, start, end, a);
        }
        a := a + 1;
      }
      ForkedSkip(s0, Now(), parent, child, start, end, a * U3, U4);
    }
  }

  const ENOENT: int := 2
}
