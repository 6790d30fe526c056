/** The four nested loops with which src/memory/paging.c visits the pages of an area, in
    `taskForkMemory` and in `__doMUNMap`. All quantities are in pages: the code's byte offsets
    shifted right by 12, the end of the area rounded up. A table that does not exist is skipped
    by the code; it holds no entry, so the model walks it and finds nothing there. */
module Walk {

  // pages covered by one entry of each table level above the last, and by all tables
  const U1: nat := 512
  const U2: nat := 0x4_0000
  const U3: nat := 0x800_0000
  const U4: nat := 0x10_0000_0000

  // the 9-bit index of a page in the tables of each level, last level first
  function D0(p: nat): nat { p % 512 }
  function D1(p: nat): nat { p / 512 % 512 }
  function D2(p: nat): nat { p / 512 / 512 % 512 }
  function D3(p: nat): nat { p / 512 / 512 / 512 % 512 }

  function Min(a: int, b: int): int {
    if a > b then b else a
  }

  /** The pages the loops reach: no index may be below the same index of the start of the
      area, because every inner loop starts over at the area's own index. */
  predicate Reached(start: nat, end: nat, p: nat) {
    && p < end && p < U4
    && D3(p) >= D3(start) && D2(p) >= D2(start) && D1(p) >= D1(start) && D0(p) >= D0(start)
  }

  /** The reached pages below `cur` have been visited, in ascending order, and nothing else. */
  ghost predicate Done(visited: seq<nat>, start: nat, end: nat, cur: int) {
    && (forall p: nat :: p in visited <==> Reached(start, end, p) && p < cur)
    && (forall i, j | 0 <= i < j < |visited| :: visited[i] < visited[j])
  }

  /** A step over pages that are not reached. */
  lemma Skip(visited: seq<nat>, start: nat, end: nat, cur: int, next: int)
    requires Done(visited, start, end, cur) && cur <= next
    requires forall p: nat | cur <= p < next :: !Reached(start, end, p)
    ensures Done(visited, start, end, next)
  {
  }

  lemma Visit(visited: seq<nat>, start: nat, end: nat, p: nat)
    requires Done(visited, start, end, p) && Reached(start, end, p)
    ensures Done(visited + [p], start, end, p + 1)
  {
    assert forall i | 0 <= i < |visited| :: visited[i] in visited;
  }

  /** The entries of page table number `q`. */
  method WalkEntries(start: nat, end: nat, q: nat, before: seq<nat>) returns (visited: seq<nat>)
    requires q < U3 && Done(before, start, end, q * U1)
    requires q / 512 / 512 >= D3(start) && q / 512 % 512 >= D2(start) && q % 512 >= D1(start)
    ensures Done(visited, start, end, (q + 1) * U1)
  {
    var base := q * U1;
    var offset2 := D0(start);
    visited := before;
    SkippedEntries(start, end, q);
    Skip(visited, start, end, base, base + offset2);
    while offset2 < Min(U1, end - base)
      invariant D0(start) <= offset2 <= U1
      invariant Done(visited, start, end, base + offset2)
      decreases U1 - offset2
    {
      Entry(q, offset2);
      Visit(visited, start, end, base + offset2);
      visited := visited + [base + offset2];
      offset2 := offset2 + 1;
    }
    Skip(visited, start, end, base + offset2, base + U1);
  }

  /** The page tables of directory number `r`. */
  method WalkTables(start: nat, end: nat, r: nat, before: seq<nat>) returns (visited: seq<nat>)
    requires r < U2 && Done(before, start, end, r * U2)
    requires r / 512 >= D3(start) && r % 512 >= D2(start)
    ensures Done(visited, start, end, (r + 1) * U2)
  {
    var base := r * U2;
    var c := D1(start);
    visited := before;
    SkippedTables(start, end, r);
    Skip(visited, start, end, base, base + c * U1);
    while c * U1 < Min(U2, end - base)
      invariant D1(start) <= c <= 512
      invariant Done(visited, start, end, base + c * U1)
      decreases 512 - c
    {
      Entry(r, c);
      visited := WalkEntries(start, end, r * 512 + c, visited);
      c := c + 1;
    }
    Skip(visited, start, end, base + c * U1, base + U2);
  }

  /** The directories of table number `a`, one entry of the PML4 table. */
  method WalkDirectories(start: nat, end: nat, a: nat, before: seq<nat>) returns (visited: seq<nat>)
    requires a < 512 && Done(before, start, end, a * U3)
    requires a >= D3(start)
    ensures Done(visited, start, end, (a + 1) * U3)
  {
    var base := a * U3;
    var b := D2(start);
    visited := before;
    SkippedDirectories(start, end, a);
    Skip(visited, start, end, base, base + b * U2);
    while b * U2 < Min(U3, end - base)
      invariant D2(start) <= b <= 512
      invariant Done(visited, start, end, base + b * U2)
      decreases 512 - b
    {
      Entry(a, b);
      visited := WalkTables(start, end, a * 512 + b, visited);
      b := b + 1;
    }
    Skip(visited, start, end, base + b * U2, base + U3);
  }

  /** Entry `c` of table `r` leads to table number `512 * r + c` of the next level. */
  lemma Entry(r: nat, c: nat)
    requires c < 512
    ensures (r * 512 + c) / 512 == r && (r * 512 + c) % 512 == c
  {
  }

  lemma SkippedEntries(start: nat, end: nat, q: nat)
    ensures forall p: nat | q * U1 <= p < q * U1 + D0(start) :: !Reached(start, end, p)
  {
    forall p: nat | q * U1 <= p < q * U1 + D0(start)
      ensures !Reached(start, end, p)
    {
      Entry(q, p - q * 512);
    }
  }

  lemma SkippedTables(start: nat, end: nat, r: nat)
    ensures forall p: nat | r * U2 <= p < r * U2 + D1(start) * U1 :: !Reached(start, end, p)
  {
    forall p: nat | r * U2 <= p < r * U2 + D1(start) * U1
      ensures !Reached(start, end, p)
    {
      var q := p / 512;
      assert r * 512 <= q < r * 512 + D1(start);
      Entry(r, q - r * 512);
    }
  }

  lemma SkippedDirectories(start: nat, end: nat, a: nat)
    ensures forall p: nat | a * U3 <= p < a * U3 + D2(start) * U2 :: !Reached(start, end, p)
  {
    forall p: nat | a * U3 <= p < a * U3 + D2(start) * U2
      ensures !Reached(start, end, p)
    {
      var q := p / 512;
      var r := q / 512;
      assert a * U2 <= q < a * U2 + D2(start) * U1;
      assert a * 512 <= r < a * 512 + D2(start);
      Entry(a, r - a * 512);
    }
  }

  /** All pages the loops reach for the area from `start` up to `end`, in the order they do. */
  method Walk(start: nat, end: nat) returns (visited: seq<nat>)
    ensures forall p: nat :: p in visited <==> Reached(start, end, p)
    ensures forall i, j | 0 <= i < j < |visited| :: visited[i] < visited[j]
  {
    visited := [];
    var a := D3(start);
    Skip(visited, start, end, 0, a * U3);
    while a * U3 < Min(U4, end)
      invariant D3(start) <= a <= 512
      invariant Done(visited, start, end, a * U3)
      decreases 512 - a
    {
      visited := WalkDirectories(start, end, a, visited);
      a := a + 1;
    }
  }

  // ----- When the loops visit the whole area -----

  /** Every page of the area is visited. */
  ghost predicate VisitsAll(start: nat, end: nat) {
    forall p: nat | start <= p < end :: Reached(start, end, p)
  }

  /** The area stays inside one window of each level, or starts at index 0 of the levels below. */
  predicate Walkable(start: nat, end: nat) {
    start < end ==>
      var last := end - 1;
      && end <= U4
      && (start / 512 == last / 512 || D0(start) == 0)
      && (start / 512 / 512 == last / 512 / 512 || D1(start) == 0)
      && (start / 512 / 512 / 512 == last / 512 / 512 / 512 || D2(start) == 0)
  }

  /** The loops visit the whole area exactly when it is walkable: an area that crosses a 2 MiB
      boundary without starting on one loses pages right behind the boundary. */
  lemma VisitsAllIff(start: nat, end: nat)
    ensures VisitsAll(start, end) <==> Walkable(start, end)
  {
    if Walkable(start, end) {
      forall p: nat | start <= p < end
        ensures Reached(start, end, p)
      {
        WalkableReaches(start, end, p);
      }
    } else {
      MissedPage(start, end);
    }
  }

  lemma WalkableReaches(start: nat, end: nat, p: nat)
    requires Walkable(start, end) && start <= p < end
    ensures Reached(start, end, p)
  {
    var last := end - 1;
    DigitGrows(start, p, last);
    DigitGrows(start / 512, p / 512, last / 512);
    DigitGrows(start / 512 / 512, p / 512 / 512, last / 512 / 512);
    DigitGrows(start / 512 / 512 / 512, p / 512 / 512 / 512, last / 512 / 512 / 512);
  }

  /** Between `s` and `last` the low index stays above that of `s`, if the higher ones are
      the same throughout or the index of `s` is 0. */
  lemma DigitGrows(s: nat, p: nat, last: nat)
    requires s <= p <= last
    ensures s / 512 <= p / 512 <= last / 512
    ensures s / 512 == last / 512 || s % 512 == 0 ==> s % 512 <= p % 512
  {
  }

  lemma MissedPage(start: nat, end: nat)
    requires !Walkable(start, end)
    ensures exists p: nat :: start <= p < end && !Reached(start, end, p)
  {
    var last := end - 1;
    var q, l := start / 512, last / 512;
    var r, m := q / 512, l / 512;
    if end > U4 {
      assert start <= last < end && !Reached(start, end, last);
    } else if q != l && D0(start) != 0 {
      BehindBoundary(start, last);
      assert !Reached(start, end, (q + 1) * 512);
    } else if r != m && D1(start) != 0 {
      BehindBoundary(q, l);
      var p := (r + 1) * 512 * 512;
      assert D1(p) == 0 && start <= p < end && !Reached(start, end, p);
    } else {
      BehindBoundary(r, m);
      var p := (r / 512 + 1) * 512 * 512 * 512;
      assert D2(p) == 0 && start <= p < end && !Reached(start, end, p);
    }
  }

  lemma BehindBoundary(s: nat, last: nat)
    requires s / 512 != last / 512 && s <= last
    ensures var p := (s / 512 + 1) * 512; s < p <= last && p % 512 == 0
  {
  }

  /** An area of two pages around a 2 MiB boundary: its second page is never visited. */
  lemma TwoPagesAcrossABoundary()
    ensures Reached(511, 513, 511) && !Reached(511, 513, 512)
  {
  }

  /** The loops never leave the area. */
  lemma ReachedInside(start: nat, end: nat, p: nat)
    requires Reached(start, end, p) && start < U4
    ensures start <= p < end
  {
    Rebuild(start);
    Rebuild(p);
  }

  lemma Rebuild(p: nat)
    requires p < U4
    ensures p == D3(p) * U3 + D2(p) * U2 + D1(p) * U1 + D0(p)
  {
    var q := p / 512;
    var r := q / 512;
    assert p == 512 * q + D0(p) && q == 512 * r + D1(p) && r == 512 * (r / 512) + D2(p);
    assert r / 512 < 512;
  }
}
