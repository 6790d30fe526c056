/** Powers of two, aligned windows of page numbers and the bit operations that the
    physical page allocator performs on them. Everything is defined by halving, so that
    no proof has to reason about products. */
module Windows {
  import opened Sets

  /** `1 << k`. */
  function Pow2(k: nat): (r: nat)
    ensures r >= 1
  {
    if k == 0 then 1 else 2 * Pow2(k - 1)
  }

  /** `i >> k`: the number of the aligned window of 2^k pages that holds page `i`. */
  function Win(i: nat, k: nat): nat {
    if k == 0 then i else Win(i, k - 1) / 2
  }

  predicate SameWindow(i: nat, j: nat, k: nat) {
    Win(i, k) == Win(j, k)
  }

  /** `(i >> k) << k`: the first page of that window. */
  function Base(i: nat, k: nat): nat {
    if k == 0 then i else 2 * Base(i / 2, k - 1)
  }

  /** `i` is a multiple of 2^k. */
  predicate Head(i: nat, k: nat) {
    Base(i, k) == i
  }

  /** `a ^ b` and `a & b`, bit by bit. */
  function Xor(a: nat, b: nat): nat
    decreases a + b
  {
    if a == 0 then b else if b == 0 then a
    else 2 * Xor(a / 2, b / 2) + (if a % 2 == b % 2 then 0 else 1)
  }

  function And(a: nat, b: nat): nat {
    if a == 0 || b == 0 then 0
    else 2 * And(a / 2, b / 2) + (if a % 2 == 1 && b % 2 == 1 then 1 else 0)
  }

  /** `i ^ (1 << k)`: the same place in the other half of the window of 2^(k+1) pages. */
  function BuddyOf(i: nat, k: nat): nat {
    Xor(i, Pow2(k))
  }

  // ----- Windows -----

  lemma {:induction false} WindowsNest(i: nat, j: nat, k: nat, m: nat)
    requires k <= m && SameWindow(i, j, k)
    ensures SameWindow(i, j, m)
  {
    if k < m {
      WindowsNest(i, j, k, m - 1);
    }
  }

  lemma {:induction false} WinOfHalf(i: nat, k: nat)
    ensures Win(i / 2, k) == Win(i, k + 1)
  {
    if k > 0 {
      WinOfHalf(i, k - 1);
    }
  }

  lemma {:induction false} WindowBounds(i: nat, k: nat)
    ensures Base(i, k) <= i < Base(i, k) + Pow2(k)
  {
    if k > 0 {
      WindowBounds(i / 2, k - 1);
    }
  }

  /** A window is the interval of 2^k pages that starts at its base. */
  lemma {:induction false} SameWindowIffInterval(h: nat, i: nat, k: nat)
    ensures SameWindow(h, i, k) <==> Base(h, k) <= i < Base(h, k) + Pow2(k)
    ensures SameWindow(h, i, k) ==> Base(i, k) == Base(h, k)
  {
    if k > 0 {
      SameWindowIffInterval(h / 2, i / 2, k - 1);
      WinOfHalf(h, k - 1);
      WinOfHalf(i, k - 1);
    }
  }

  lemma BaseInWindow(i: nat, k: nat)
    ensures SameWindow(i, Base(i, k), k)
    ensures Head(Base(i, k), k)
  {
    SameWindowIffInterval(i, Base(i, k), k);
  }

  lemma OneHead(h: nat, k: nat)
    requires Head(h, k)
    ensures forall x: nat :: SameWindow(h, x, k) && Head(x, k) ==> x == h
  {
    forall x: nat | SameWindow(h, x, k) && Head(x, k)
      ensures x == h
    {
      SameWindowIffInterval(h, x, k);
    }
  }

  /** A head of a large window heads the smaller windows at that place too. */
  lemma {:induction false} HeadOfSmaller(i: nat, k: nat, m: nat)
    requires k <= m && Head(i, m)
    ensures Head(i, k)
  {
    if 0 < k {
      HeadOfSmaller(i / 2, k - 1, m - 1);
    }
  }

  lemma {:induction false} BaseStep(i: nat, k: nat)
    ensures Base(i, k + 1) == if Win(i, k) % 2 == 0 then Base(i, k) else Base(i, k) - Pow2(k)
  {
    if k == 0 {
      assert Base(i, 1) == 2 * Base(i / 2, 0);
    } else {
      BaseStep(i / 2, k - 1);
      WinOfHalf(i, k - 1);
    }
  }

  /** Memory of a multiple of 2^m pages contains every window of its pages up to that size. */
  lemma {:induction false} WindowInside(i: nat, n: nat, k: nat, m: nat)
    requires k <= m && i < n && Head(n, m)
    ensures Base(i, k) + Pow2(k) <= n
  {
    if k > 0 {
      WindowInside(i / 2, n / 2, k - 1, m - 1);
      HeadOfSmaller(n, 1, m);
    }
  }

  /** The window of 2^k pages around page `i` ends inside a map of `n` pages. */
  predicate Fits(n: nat, i: nat, k: nat) {
    Base(i, k) + Pow2(k) <= n
  }

  lemma FitsContains(n: nat, i: nat, k: nat)
    requires Fits(n, i, k)
    ensures forall j: nat | SameWindow(i, j, k) :: j < n
  {
    forall j: nat | SameWindow(i, j, k)
      ensures j < n
    {
      SameWindowIffInterval(i, j, k);
    }
  }

  lemma {:induction false} Pow2IsHead(k: nat, m: nat)
    requires k <= m
    ensures Head(Pow2(m), k)
  {
    if k > 0 {
      Pow2IsHead(k - 1, m - 1);
    }
  }

  // ----- Buddies -----

  lemma {:induction false} XorPow2(i: nat, k: nat)
    ensures BuddyOf(i, k) == if Win(i, k) % 2 == 0 then i + Pow2(k) else i - Pow2(k)
    ensures Win(i, k) % 2 == 1 ==> Pow2(k) <= i
  {
    if k == 0 {
      assert Xor(i / 2, 0) == i / 2;
    } else if i == 0 {
      WinZero(k);
    } else {
      XorPow2(i / 2, k - 1);
      WinOfHalf(i, k - 1);
      XorHalves(i, k);
    }
  }

  lemma XorHalves(i: nat, k: nat)
    requires i > 0 && k > 0
    ensures BuddyOf(i, k) == 2 * BuddyOf(i / 2, k - 1) + i % 2
  {
    assert Pow2(k) / 2 == Pow2(k - 1) && Pow2(k) % 2 == 0;
  }

  lemma {:induction false} WinZero(k: nat)
    ensures Win(0, k) == 0
  {
    if k > 0 {
      WinZero(k - 1);
    }
  }

  /** `i & (i ^ (1 << k))` clears bit `k`. */
  lemma {:induction false} AndBuddy(i: nat, k: nat)
    ensures And(i, BuddyOf(i, k)) == if Win(i, k) % 2 == 0 then i else i - Pow2(k)
  {
    XorPow2(i, k);
    if i == 0 {
      WinZero(k);
    } else if k == 0 {
      AndSelf(i / 2);
    } else {
      AndBuddy(i / 2, k - 1);
      XorPow2(i / 2, k - 1);
      WinOfHalf(i, k - 1);
      var b := BuddyOf(i, k);
      assert b / 2 == BuddyOf(i / 2, k - 1) && b % 2 == i % 2;
    }
  }

  lemma {:induction false} AndSelf(a: nat)
    ensures And(a, a) == a
  {
    if a > 0 {
      AndSelf(a / 2);
    }
  }

  /** One window further. */
  lemma {:induction false} NextWindow(i: nat, k: nat)
    ensures Win(i + Pow2(k), k) == Win(i, k) + 1
    ensures Base(i + Pow2(k), k) == Base(i, k) + Pow2(k)
  {
    if k > 0 {
      var j := i + Pow2(k);
      assert j / 2 == i / 2 + Pow2(k - 1);
      NextWindow(i / 2, k - 1);
      WinOfHalf(i, k - 1);
      WinOfHalf(j, k - 1);
    }
  }

  lemma LowerHalfBuddy(i: nat, k: nat)
    requires Win(i, k) % 2 == 0
    ensures var b := i + Pow2(k);
            && BuddyOf(i, k) == b && BuddyOf(b, k) == i
            && Win(b, k) == Win(i, k) + 1 && Win(b, k + 1) == Win(i, k + 1)
            && Base(b, k) == Base(i, k) + Pow2(k)
  {
    NextWindow(i, k);
    XorPow2(i, k);
    XorPow2(i + Pow2(k), k);
  }

  lemma UpperHalfBuddy(i: nat, k: nat)
    requires Win(i, k) % 2 == 1
    ensures Pow2(k) <= i
    ensures var b := i - Pow2(k);
            && BuddyOf(i, k) == b && BuddyOf(b, k) == i
            && Win(i, k) == Win(b, k) + 1 && Win(i, k + 1) == Win(b, k + 1)
            && Base(i, k) == Base(b, k) + Pow2(k)
  {
    XorPow2(i, k);
    NextWindow(i - Pow2(k), k);
    LowerHalfBuddy(i - Pow2(k), k);
  }

  /** The buddy of a page lies in the other half of the next larger window, at the same place. */
  lemma BuddyWindow(i: nat, k: nat)
    ensures var b := BuddyOf(i, k);
            && b != i && !SameWindow(i, b, k) && SameWindow(i, b, k + 1)
            && BuddyOf(b, k) == i
            && Base(b, k) - b == Base(i, k) - i
  {
    if Win(i, k) % 2 == 0 {
      LowerHalfBuddy(i, k);
    } else {
      UpperHalfBuddy(i, k);
    }
  }

  lemma BuddyOfHead(h: nat, k: nat)
    requires Head(h, k)
    ensures var b := BuddyOf(h, k);
            && Head(b, k)
            && And(h, b) == Base(h, k + 1) && Head(And(h, b), k + 1)
            && (And(h, b) == h || And(h, b) == b)
            && h < Base(h, k + 1) + Pow2(k + 1) && b < Base(h, k + 1) + Pow2(k + 1)
  {
    XorPow2(h, k);
    AndBuddy(h, k);
    BuddyWindow(h, k);
    BaseStep(h, k);
    BaseInWindow(h, k + 1);
  }

  /** Both halves of a window that fits fit. */
  lemma HalvesFit(h: nat, k: nat, n: nat)
    requires Fits(n, h, k + 1)
    ensures Fits(n, h, k) && Fits(n, BuddyOf(h, k), k) && BuddyOf(h, k) < n
  {
    BaseStep(h, k);
    XorPow2(h, k);
    BuddyWindow(h, k);
    WindowBounds(BuddyOf(h, k), k);
  }

  /** Two buddies that fit fill a window that fits. */
  lemma PairFits(h: nat, k: nat, n: nat)
    requires Fits(n, h, k) && Fits(n, BuddyOf(h, k), k)
    ensures Fits(n, h, k + 1)
  {
    BaseStep(h, k);
    XorPow2(h, k);
    BuddyWindow(h, k);
  }

  /** A window of 2^(k+1) pages is its two halves. */
  lemma HalvesOfWindow(i: nat, j: nat, k: nat)
    ensures SameWindow(i, j, k + 1) <==> SameWindow(i, j, k) || SameWindow(BuddyOf(i, k), j, k)
  {
    BuddyWindow(i, k);
  }

  /** The upper half of a block: the page the allocators hand back when they split. */
  lemma UpperHalf(h: nat, k: nat)
    requires Head(h, k + 1)
    ensures Head(h, k) && BuddyOf(h, k) == h + Pow2(k) && Head(h + Pow2(k), k)
  {
    HeadOfSmaller(h, k, k + 1);
    BuddyOfHead(h, k);
    XorPow2(h, k);
    BaseStep(h, k);
  }

  // ----- Windows as sets of pages -----

  /** The pages of the window of 2^k pages that holds `h`. */
  function Window(h: nat, k: nat): (s: set<nat>)
    ensures |s| == Pow2(k)
  {
    Interval(Base(h, k), Base(h, k) + Pow2(k))
  }

  lemma WindowMembers(h: nat, k: nat)
    ensures forall i: nat :: i in Window(h, k) <==> SameWindow(h, i, k)
  {
    forall i: nat
      ensures i in Window(h, k) <==> SameWindow(h, i, k)
    {
      SameWindowIffInterval(h, i, k);
    }
  }

  /** Doubling the block that holds `page`: its new head and its pages. */
  lemma LargerWindow(page: nat, k: nat)
    ensures var h := Base(page, k);
            var low := And(h, BuddyOf(h, k));
            && SameWindow(h, page, k) && Head(h, k)
            && low == Base(page, k + 1) && Window(low, k + 1) == Window(h, k + 1)
  {
    var h := Base(page, k);
    BaseInWindow(page, k);
    BuddyOfHead(h, k);
    WindowsNest(h, page, k, k + 1);
    SameWindowIffInterval(h, page, k + 1);
  }

  lemma WindowHalves(h: nat, k: nat)
    ensures Window(h, k + 1) == Window(h, k) + Window(BuddyOf(h, k), k)
    ensures Window(h, k) !! Window(BuddyOf(h, k), k)
  {
    var b := BuddyOf(h, k);
    BuddyWindow(h, k);
    BaseStep(h, k);
    XorPow2(h, k);
    assert Pow2(k + 1) == 2 * Pow2(k);
    if Win(h, k) % 2 == 0 {
      assert Base(b, k) == Base(h, k) + Pow2(k) && Base(h, k + 1) == Base(h, k);
    } else {
      assert Base(b, k) == Base(h, k) - Pow2(k) && Base(h, k + 1) == Base(b, k);
    }
  }

  // ----- Masks -----

  /** `x << k`. */
  function Shl(x: nat, k: nat): (r: nat)
    ensures x <= r
  {
    if k == 0 then x else 2 * Shl(x, k - 1)
  }

  /** `x & ((1 << m) - 1)` is what lies above the window's base. */
  lemma {:induction false} MaskLow(x: nat, m: nat)
    ensures And(x, Pow2(m) - 1) == x - Base(x, m)
  {
    WindowBounds(x, m);
    if m > 0 {
      MaskLow(x / 2, m - 1);
      var mask := Pow2(m) - 1;
      assert mask / 2 == Pow2(m - 1) - 1 && mask % 2 == 1;
      WindowBounds(x / 2, m - 1);
      if x > 0 {
        assert And(x, mask) == 2 * And(x / 2, mask / 2) + x % 2;
      }
    }
  }

  lemma {:induction false} BaseZero(x: nat, m: nat)
    ensures Base(x, m) == 0 <==> x < Pow2(m)
  {
    if m > 0 {
      BaseZero(x / 2, m - 1);
    }
  }

  lemma {:induction false} BaseOfSum(a: nat, b: nat, k: nat)
    requires Head(b, k)
    ensures Base(a + b, k) == Base(a, k) + b
  {
    if k > 0 {
      assert (a + b) / 2 == a / 2 + b / 2;
      BaseOfSum(a / 2, b / 2, k - 1);
    }
  }

  lemma {:induction false} HeadOfShifted(x: nat, j: nat, k: nat)
    ensures Head(Shl(x, j), j + k) <==> Head(x, k)
  {
    if j > 0 {
      HeadOfShifted(x, j - 1, k);
      assert Shl(x, j) / 2 == Shl(x, j - 1);
    }
  }

  lemma {:induction false} ShlBelow(x: nat, j: nat, m: nat)
    ensures Shl(x, j) < Pow2(j + m) <==> x < Pow2(m)
    ensures Shl(x, j) <= Pow2(j + m) <==> x <= Pow2(m)
  {
    if j > 0 {
      ShlBelow(x, j - 1, m);
    }
  }

  lemma {:induction false} ShlOfPow2(k: nat, j: nat)
    ensures Shl(Pow2(k), j) == Pow2(j + k)
  {
    if j > 0 {
      ShlOfPow2(k, j - 1);
    }
  }

  lemma {:induction false} ShlIsTimes(x: nat, k: nat)
    ensures Shl(x, k) == x * Pow2(k)
  {
    if k > 0 {
      ShlIsTimes(x, k - 1);
      var p := Pow2(k - 1);
      assert 2 * (x * p) == x * (2 * p);
    }
  }

  lemma {:induction false} ShlMonotone(x: nat, y: nat, j: nat)
    ensures x <= y <==> Shl(x, j) <= Shl(y, j)
  {
    if j > 0 {
      ShlMonotone(x, y, j - 1);
    }
  }

  lemma {:induction false} Pow2Monotone(k: nat, m: nat)
    ensures k < m ==> Pow2(k) < Pow2(m)
  {
    if 0 < k < m {
      Pow2Monotone(k - 1, m - 1);
    } else if 0 == k < m {
      Pow2Monotone(0, m - 1);
    }
  }
}
