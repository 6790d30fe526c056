/** The four-level page tables behave as the one map of entries that the model of copy-on-write keeps. */
module TableRefinement {
  import opened Walk
  import C = CowState
  import opened PageTables

  /** The entry of a place in the flat map. */
  function EntryOf(table: map<C.Place, C.Pte>, k: C.Place): Entry {
    if k in table then Present(table[k].frame, table[k].write) else Absent
  }

  /** `roots` gives each address space a PML4 table of its own; the entries below it are those of the map. */
  ghost predicate Represents(s: State, roots: map<nat, nat>, table: map<C.Place, C.Pte>)
    requires Wf(s)
  {
    && (forall m, n | m in roots && n in roots && roots[m] == roots[n] :: m == n)
    && (forall k | k in table :: k.0 in roots)
    && (forall m: nat, p: nat {:trigger Leaf(s, roots[m], p)} {:trigger EntryOf(table, (m, p))} | m in roots ::
          EntryOf(table, (m, p)) == Leaf(s, roots[m], p))
  }

  /** The processor reads the flat map. */
  lemma TranslateReadsMap(s: State, roots: map<nat, nat>, table: map<C.Place, C.Pte>, m: nat, p: nat)
    requires Wf(s) && Represents(s, roots, table) && m in roots && Place(roots[m], 3, 0) in s.at && p < U4
    ensures Translate(s.tables, roots[m], p) == EntryOf(table, (m, p))
  {
    TranslateIsLeaf(s, roots[m], p);
  }

  lemma SetRefines(s: State, r: State, roots: map<nat, nat>, table: map<C.Place, C.Pte>, m: nat, p: nat, frame: nat, write: bool)
    requires Wf(s) && Wf(r) && Represents(s, roots, table) && m in roots
    requires LeafSet(s, r, roots[m], p, Present(frame, write))
    ensures Represents(r, roots, table[(m, p) := C.Pte(frame, write)])
  {
    var table' := table[(m, p) := C.Pte(frame, write)];
    forall n: nat, q: nat | n in roots
      ensures EntryOf(table', (n, q)) == Leaf(r, roots[n], q)
    {
      assert EntryOf(table, (n, q)) == Leaf(s, roots[n], q);
    }
  }

  lemma ClearRefines(s: State, r: State, roots: map<nat, nat>, table: map<C.Place, C.Pte>, m: nat, p: nat)
    requires Wf(s) && Wf(r) && Represents(s, roots, table) && m in roots && LeafSet(s, r, roots[m], p, Absent)
    ensures Represents(r, roots, table - {(m, p)})
  {
    forall n: nat, q: nat | n in roots
      ensures EntryOf(table - {(m, p)}, (n, q)) == Leaf(r, roots[n], q)
    {
      assert EntryOf(table, (n, q)) == Leaf(s, roots[n], q);
    }
  }

  /** An entry after all visited pages are shared. */
  lemma {:induction false} SharedEntry(table: map<C.Place, C.Pte>, parent: nat, child: nat, pages: seq<nat>, k: C.Place)
    requires parent != child
    ensures EntryOf(C.ShareAll(table, parent, child, pages), k) ==
            if k.1 in pages && (k.0 == parent || k.0 == child) && (parent, k.1) in table
            then Present(table[(parent, k.1)].frame, false) else EntryOf(table, k)
  {
    if pages != [] {
      var n := |pages| - 1;
      SharedEntry(table, parent, child, pages[..n], k);
      SharedEntry(table, parent, child, pages[..n], (parent, k.1));
      assert k.1 in pages <==> k.1 in pages[..n] || k.1 == pages[n];
    }
  }

  lemma SharedKeys(table: map<C.Place, C.Pte>, parent: nat, child: nat, pages: seq<nat>, k: C.Place)
    requires parent != child && k in C.ShareAll(table, parent, child, pages)
    ensures k in table || k.0 == parent || k.0 == child
  {
    SharedEntry(table, parent, child, pages, k);
  }

  /** The loops of fork over the four-level tables do what the loops over the map do, page by page. */
  lemma ForkRefines(s0: State, s: State, roots: map<nat, nat>, table: map<C.Place, C.Pte>, parent: nat, child: nat,
                    start: nat, end: nat, pages: seq<nat>)
    requires Wf(s0) && Wf(s) && Represents(s0, roots, table) && parent in roots && child in roots && parent != child
    requires Forked(s0, s, roots[parent], roots[child], start, end, U4)
    requires forall p: nat :: p in pages <==> Reached(start, end, p)
    ensures Represents(s, roots, C.ShareAll(table, parent, child, pages))
  {
    var table' := C.ShareAll(table, parent, child, pages);
    forall k | k in table'
      ensures k.0 in roots
    {
      SharedKeys(table, parent, child, pages, k);
    }
    forall m: nat, p: nat | m in roots
      ensures EntryOf(table', (m, p)) == Leaf(s, roots[m], p)
    {
      SharedEntry(table, parent, child, pages, (m, p));
      assert EntryOf(table, (m, p)) == Leaf(s0, roots[m], p);
      assert EntryOf(table, (parent, p)) == Leaf(s0, roots[parent], p);
    }
  }
}
