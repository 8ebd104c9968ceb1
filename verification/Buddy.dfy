/** The buddy allocator: a complete binary tree of block sizes kept in one array.

    `longest[i]` is meant to be the size of the largest free block below node i.  The
    invariant is local: it relates each node to its two children.  From it follow the
    facts about all live blocks, and that the array is a function of the set of
    live nodes alone. */
module Buddy {
  import opened Words
  import opened Wrappers

  // ----- Rounding a request up to a power of two

  /** The least power of two that is at least n. */
  function CeilPow2(n: nat): nat {
    if n <= 1 then 1 else 2 * CeilPow2((n + 1) / 2)
  }

  lemma {:induction false} CeilBetween(n: nat, h: nat)
    requires Pow2(h) < n <= Pow2(h + 1)
    ensures CeilPow2(n) == Pow2(h + 1)
  {
    if h > 0 {
      CeilBetween((n + 1) / 2, h - 1);
    }
  }

  lemma {:induction false} CeilIsLeast(n: nat)
    ensures IsPow2(CeilPow2(n)) && n <= CeilPow2(n)
    ensures forall q: nat :: IsPow2(q) && n <= q ==> CeilPow2(n) <= q
  {
    if n > 1 {
      CeilIsLeast((n + 1) / 2);
      forall q: nat | IsPow2(q) && n <= q ensures CeilPow2(n) <= q {
        HalfPower(q, n);
      }
    }
  }

  lemma HalfPower(q: nat, n: nat)
    requires IsPow2(q) && 1 < n <= q
    ensures IsPow2(q / 2) && (n + 1) / 2 <= q / 2 && q == 2 * (q / 2)
  {
  }

  /** size |= size >> m */
  method SmearBy(x: nat, m: nat, ghost h: nat) returns (y: nat)
    requires TopOnes(x, h, Least(m, h + 1))
    ensures TopOnes(y, h, Least(2 * m, h + 1))
  {
    y := Or(x, Shifted(x, m));
    if m <= h + 1 {
      Smear(x, h, m);
    } else {
      ShiftedOut(x, h, m);
      AllOnes(x, h + 1);
    }
  }

  lemma SmearedIs(size: nat, r: nat, h: nat)
    requires Pow2(h) <= size < Pow2(h + 1) && h < 31 && !IsPow2(size) && TopOnes(r, h, Least(32, h + 1))
    ensures (r + 1) % 0x1_0000_0000 == CeilPow2(size)
  {
    assert r == Pow2(h + 1) - 1;
    WordLimit(h);
    Pow2IsPow2(h);
    CeilBetween(size, h);
  }

  /** fixsize, on 32-bit words. */
  method FixSize(size: nat) returns (r: nat)
    requires 0 < size < 0x8000_0000 && !IsPow2(size)
    ensures r == CeilPow2(size)
  {
    ghost var h := WordExponent(size);
    r := SmearBy(size, 1, h);
    r := SmearBy(r, 2, h);
    r := SmearBy(r, 4, h);
    r := SmearBy(r, 8, h);
    r := SmearBy(r, 16, h);
    SmearedIs(size, r, h);
    r := (r + 1) % 0x1_0000_0000;
  }

  /** How buddy2_alloc adjusts its argument. */
  method Round(size: int) returns (r: nat)
    requires size < 0x8000_0000
    ensures r == CeilPow2(if size <= 0 then 1 else size)
  {
    if size <= 0 {
      r := 1;
    } else {
      MacroCorrect(size);
      if !MacroIsPow2(size) {
        r := FixSize(size);
      } else {
        r := size;
        CeilIsLeast(size);
      }
    }
  }

  lemma WordPow2()
    ensures Pow2(31) == 0x8000_0000
  {
    assert Pow2(10) == 0x400;
    assert Pow2(20) == 0x10_0000;
  }

  lemma WordLimit(h: nat)
    requires h < 31
    ensures Pow2(h + 1) < 0x1_0000_0000
  {
    WordPow2();
    if h < 30 {
      Pow2Monotone(h + 1, 31);
    }
  }

  lemma WordExponent(size: nat) returns (h: nat)
    requires 0 < size < 0x8000_0000
    ensures Pow2(h) <= size < Pow2(h + 1) && h < 31
  {
    h := ExponentBelow(size);
    WordPow2();
    if h > 31 {
      Pow2Monotone(31, h);
    }
  }

  function Least(x: nat, y: nat): nat {
    if x < y then x else y
  }

  lemma {:induction false} ShiftedOut(x: nat, h: nat, m: nat)
    requires x < Pow2(h + 1) && h + 1 <= m
    ensures Shifted(x, m) == 0
  {
    if h == 0 {
      ShiftedZero(m - 1);
    } else {
      ShiftedOut(x / 2, h - 1, m - 1);
    }
  }

  lemma {:induction false} ShiftedZero(m: nat)
    ensures Shifted(0, m) == 0
  {
    if m > 0 {
      ShiftedZero(m - 1);
    }
  }

  // ----- The shape of the tree

  /** The number of nodes of a tree over 2^k units. */
  function Nodes(k: nat): nat {
    2 * Pow2(k) - 1
  }

  function Depth(i: nat): nat {
    if i == 0 then 0 else 1 + Depth((i - 1) / 2)
  }

  lemma {:induction false} DepthBounds(i: nat)
    ensures Pow2(Depth(i)) <= i + 1 < Pow2(Depth(i) + 1)
  {
    if i > 0 {
      DepthBounds((i - 1) / 2);
    }
  }

  lemma DepthInTree(k: nat, i: nat)
    ensures i < Nodes(k) <==> Depth(i) <= k
    ensures i < Pow2(k) - 1 <==> Depth(i) < k
  {
    DepthBounds(i);
    if Depth(i) < k {
      Pow2Monotone(Depth(i), k);
    } else if k < Depth(i) {
      Pow2Monotone(k, Depth(i));
    }
  }

  predicate Leaf(k: nat, i: nat) {
    i >= Pow2(k) - 1
  }

  /** The number of units that node i stands for. */
  function Size(k: nat, i: nat): (s: nat)
    requires i < Nodes(k)
    ensures s > 0 && (Leaf(k, i) <==> s == 1)
    ensures i == 0 ==> s == Pow2(k)
  {
    DepthInTree(k, i);
    Pow2(k - Depth(i))
  }

  /** The first unit that node i stands for. */
  function Off(k: nat, i: nat): nat
    requires i < Nodes(k)
  {
    if i == 0 then 0
    else Off(k, (i - 1) / 2) + (if i % 2 == 1 then 0 else Size(k, i))
  }

  lemma Halves(k: nat, i: nat)
    requires i < Nodes(k) && !Leaf(k, i)
    ensures 2 * i + 2 < Nodes(k)
    ensures Size(k, 2 * i + 1) == Size(k, 2 * i + 2) && 2 * Size(k, 2 * i + 1) == Size(k, i)
    ensures Off(k, 2 * i + 1) == Off(k, i) && Off(k, 2 * i + 2) == Off(k, i) + Size(k, 2 * i + 1)
  {
    DepthInTree(k, i);
  }

  /** The offset that buddy2_alloc computes from an index. */
  lemma {:induction false} OffsetFormula(k: nat, i: nat)
    requires i < Nodes(k)
    ensures Off(k, i) == (i + 1) * Size(k, i) - Pow2(k)
    ensures Off(k, i) + Size(k, i) <= Pow2(k)
  {
    if i > 0 {
      var p := (i - 1) / 2;
      OffsetFormula(k, p);
      Halves(k, p);
      Doubling(p, Size(k, i));
    }
  }

  lemma Doubling(p: nat, half: nat)
    ensures (p + 1) * (2 * half) == (2 * p + 2) * half
    ensures (2 * p + 3) * half == (2 * p + 2) * half + half
  {
  }

  /** Every block starts at a multiple of its size. */
  lemma {:induction false} Aligned(k: nat, i: nat)
    requires i < Nodes(k)
    ensures exists q: nat :: Off(k, i) == q * Size(k, i)
  {
    if i == 0 {
      assert Off(k, i) == 0 * Size(k, i);
    } else {
      var p := (i - 1) / 2;
      Halves(k, p);
      Aligned(k, p);
      var q: nat :| Off(k, p) == q * Size(k, p);
      var half := Size(k, i);
      AlignedHalf(q, half);
      assert Off(k, i) == (2 * q + (if i % 2 == 1 then 0 else 1)) * half;
    }
  }

  lemma AlignedHalf(q: nat, half: nat)
    ensures q * (2 * half) == (2 * q) * half == (2 * q + 0) * half
    ensures q * (2 * half) + half == (2 * q + 1) * half
  {
  }

  // ----- Ancestors and units

  /** j is i or lies above it. */
  predicate Above(j: nat, i: nat) {
    i == j || (i > j && Above(j, (i - 1) / 2))
  }

  /** The node of one unit. */
  function Unit(k: nat, c: nat): nat {
    c + Pow2(k) - 1
  }

  lemma {:induction false} AboveTrans(x: nat, y: nat, z: nat)
    requires Above(x, y) && Above(y, z)
    ensures Above(x, z)
  {
    if z != y {
      AboveTrans(x, y, (z - 1) / 2);
      AboveLess(x, y);
    }
  }

  lemma {:induction false} AboveLess(x: nat, y: nat)
    requires Above(x, y)
    ensures x <= y
  {
  }

  lemma {:induction false} RootAbove(i: nat)
    ensures Above(0, i)
  {
    if i > 0 {
      RootAbove((i - 1) / 2);
    }
  }

  /** The nodes above a given node form a chain. */
  lemma {:induction false} AboveChain(x: nat, y: nat, z: nat)
    requires Above(x, z) && Above(y, z)
    ensures Above(x, y) || Above(y, x)
  {
    if z != x && z != y {
      AboveChain(x, y, (z - 1) / 2);
    }
  }

  lemma {:induction false} AboveChild(j: nat, i: nat)
    requires Above(j, i) && i != j
    ensures Above(2 * j + 1, i) || Above(2 * j + 2, i)
  {
    if (i - 1) / 2 != j {
      AboveChild(j, (i - 1) / 2);
    }
  }

  lemma {:induction false} BlockNested(k: nat, j: nat, i: nat)
    requires i < Nodes(k) && Above(j, i)
    ensures j <= i && Off(k, j) <= Off(k, i) && Off(k, i) + Size(k, i) <= Off(k, j) + Size(k, j)
  {
    if i != j {
      var p := (i - 1) / 2;
      BlockNested(k, j, p);
      Halves(k, p);
    }
  }

  lemma UnitOffset(k: nat, c: nat)
    requires c < Pow2(k)
    ensures Off(k, Unit(k, c)) == c && Size(k, Unit(k, c)) == 1
  {
    var u := Unit(k, c);
    assert Size(k, u) == 1;
    OffsetFormula(k, u);
    assert (u + 1) * 1 == u + 1;
  }

  lemma SiblingsApart(k: nat, p: nat, c: nat)
    requires p < Nodes(k) && !Leaf(k, p) && c < Pow2(k)
    ensures 2 * p + 2 < Nodes(k)
    ensures Off(k, 2 * p + 1) <= c < Off(k, 2 * p + 1) + Size(k, 2 * p + 1) ==> !Above(2 * p + 2, Unit(k, c))
    ensures Off(k, 2 * p + 2) <= c < Off(k, 2 * p + 2) + Size(k, 2 * p + 2) ==> !Above(2 * p + 1, Unit(k, c))
  {
    Halves(k, p);
    UnitOffset(k, c);
    if Above(2 * p + 1, Unit(k, c)) {
      BlockNested(k, 2 * p + 1, Unit(k, c));
    }
    if Above(2 * p + 2, Unit(k, c)) {
      BlockNested(k, 2 * p + 2, Unit(k, c));
    }
  }

  lemma {:induction false} InBlock(k: nat, i: nat, c: nat)
    requires i < Nodes(k) && Off(k, i) <= c < Off(k, i) + Size(k, i) && c < Pow2(k)
    ensures Above(i, Unit(k, c))
  {
    if i == 0 {
      RootAbove(Unit(k, c));
    } else {
      var p := (i - 1) / 2;
      assert i == 2 * p + 1 || i == 2 * p + 2;
      Halves(k, p);
      InBlock(k, p, c);
      AboveChild(p, Unit(k, c));
      SiblingsApart(k, p, c);
    }
  }

  /** A unit lies in a node's block exactly when the node is above the unit. */
  lemma UnitIn(k: nat, i: nat, c: nat)
    requires i < Nodes(k) && c < Pow2(k)
    ensures Off(k, i) <= c < Off(k, i) + Size(k, i) <==> Above(i, Unit(k, c))
  {
    UnitOffset(k, c);
    if Above(i, Unit(k, c)) {
      BlockNested(k, i, Unit(k, c));
    } else if Off(k, i) <= c < Off(k, i) + Size(k, i) {
      InBlock(k, i, c);
    }
  }

  // ----- The invariant

  function Max(x: nat, y: nat): nat {
    if x > y then x else y
  }

  predicate BothFull(k: nat, a: seq<nat>, i: nat)
    requires |a| == Nodes(k) && i < |a| && !Leaf(k, i)
  {
    Halves(k, i);
    a[2 * i + 1] == Size(k, 2 * i + 1) && a[2 * i + 2] == Size(k, 2 * i + 2)
  }

  /** A node is never promised more than its size.  When both its children are
      wholly free it is wholly free or allocated as one block, otherwise it
      offers the better of its children. */
  predicate NodeOk(k: nat, a: seq<nat>, i: nat)
    requires |a| == Nodes(k) && i < |a|
  {
    a[i] <= Size(k, i) &&
    (!Leaf(k, i) ==>
      2 * i + 2 < |a| &&
      if BothFull(k, a, i) then a[i] == 0 || a[i] == Size(k, i)
      else a[i] == Max(a[2 * i + 1], a[2 * i + 2]))
  }

  predicate Ok(k: nat, a: seq<nat>) {
    |a| == Nodes(k) && forall i :: 0 <= i < |a| ==> NodeOk(k, a, i)
  }

  /** Node i is allocated as one block. */
  predicate Live(k: nat, a: seq<nat>, i: nat)
    requires |a| == Nodes(k) && i < |a|
  {
    a[i] == 0 && (Leaf(k, i) || BothFull(k, a, i))
  }

  function LiveNodes(k: nat, a: seq<nat>): set<nat>
    requires |a| == Nodes(k)
  {
    set i | 0 <= i < |a| && Live(k, a, i)
  }

  /** Unit c belongs to a live block. */
  ghost predicate Busy(k: nat, live: set<nat>, c: nat) {
    exists i :: i in live && Above(i, Unit(k, c))
  }

  /** No unit of node j's block belongs to a live block. */
  ghost predicate WhollyFree(k: nat, live: set<nat>, j: nat)
    requires j < Nodes(k)
  {
    forall c :: Off(k, j) <= c < Off(k, j) + Size(k, j) ==> !Busy(k, live, c)
  }

  /** The array is determined by the set of live nodes. */
  lemma {:induction false} Canonical(k: nat, a: seq<nat>, b: seq<nat>, i: nat)
    requires Ok(k, a) && Ok(k, b) && LiveNodes(k, a) == LiveNodes(k, b) && i < |a|
    ensures a[i] == b[i]
    decreases |a| - i
  {
    assert NodeOk(k, a, i) && NodeOk(k, b, i);
    assert i in LiveNodes(k, a) <==> i in LiveNodes(k, b);
    if !Leaf(k, i) {
      Halves(k, i);
      Canonical(k, a, b, 2 * i + 1);
      Canonical(k, a, b, 2 * i + 2);
    }
  }

  /** Below a full node, and strictly below a live one, every node is full. */
  lemma {:induction false} FullBelow(k: nat, a: seq<nat>, j: nat, i: nat)
    requires Ok(k, a) && i < |a| && Above(j, i)
    requires j < |a| && (a[j] == Size(k, j) || (Live(k, a, j) && i != j))
    ensures a[i] == Size(k, i)
  {
    if i != j {
      var p := (i - 1) / 2;
      AboveLess(j, p);
      Halves(k, p);
      if p != j || a[j] == Size(k, j) {
        FullBelow(k, a, j, p);
        assert NodeOk(k, a, p) && NodeOk(k, a, 2 * p + 1) && NodeOk(k, a, 2 * p + 2);
      }
    }
  }

  /** Live blocks are pairwise disjoint, in range, and aligned to their size. */
  lemma LiveBlocksDisjoint(k: nat, a: seq<nat>, i: nat, j: nat)
    requires Ok(k, a) && i in LiveNodes(k, a) && j in LiveNodes(k, a)
    ensures Off(k, i) + Size(k, i) <= Pow2(k) && exists q: nat :: Off(k, i) == q * Size(k, i)
    ensures i != j ==> Off(k, i) + Size(k, i) <= Off(k, j) || Off(k, j) + Size(k, j) <= Off(k, i)
  {
    OffsetFormula(k, i);
    OffsetFormula(k, j);
    Aligned(k, i);
    var c := if Off(k, i) < Off(k, j) then Off(k, j) else Off(k, i);
    if i != j && Off(k, i) <= c < Off(k, i) + Size(k, i) && Off(k, j) <= c < Off(k, j) + Size(k, j) {
      UnitIn(k, i, c);
      UnitIn(k, j, c);
      AboveChain(i, j, Unit(k, c));
      if Above(i, j) {
        FullBelow(k, a, i, j);
      } else {
        FullBelow(k, a, j, i);
      }
      assert false;
    }
  }

  // ----- What `longest` says about free blocks

  /** A node offering its full size, below no live node, is wholly free. */
  lemma FullIsFree(k: nat, a: seq<nat>, j: nat)
    requires Ok(k, a) && j < |a| && a[j] == Size(k, j)
    requires forall i :: i in LiveNodes(k, a) ==> !Above(i, j)
    ensures WhollyFree(k, LiveNodes(k, a), j)
  {
    forall c | Off(k, j) <= c < Off(k, j) + Size(k, j) ensures !Busy(k, LiveNodes(k, a), c) {
      OffsetFormula(k, j);
      UnitIn(k, j, c);
      forall i | i in LiveNodes(k, a) ensures !Above(i, Unit(k, c)) {
        if Above(i, Unit(k, c)) {
          AboveChain(i, j, Unit(k, c));
          FullBelow(k, a, j, i);
          assert false;
        }
      }
    }
  }

  /** A live node's units are busy, so it lies neither above nor below a wholly free node. */
  lemma FreeApart(k: nat, live: set<nat>, i: nat, j: nat)
    requires i in live && i < Nodes(k) && j < Nodes(k) && WhollyFree(k, live, j)
    ensures !Above(i, j) && !Above(j, i)
  {
    OffsetFormula(k, j);
    OffsetFormula(k, i);
    if Above(i, j) {
      var c := Off(k, j);
      UnitIn(k, j, c);
      AboveTrans(i, j, Unit(k, c));
      assert Busy(k, live, c);
      assert false;
    }
    if Above(j, i) {
      var c := Off(k, i);
      UnitIn(k, i, c);
      BlockNested(k, j, i);
      assert Busy(k, live, c);
      assert false;
    }
  }

  /** A wholly free node offers its full size. */
  lemma {:induction false} FreeIsFull(k: nat, a: seq<nat>, j: nat)
    requires Ok(k, a) && j < |a|
    requires forall i :: i in LiveNodes(k, a) ==> !Above(j, i)
    ensures a[j] == Size(k, j)
    decreases |a| - j
  {
    assert NodeOk(k, a, j);
    assert j !in LiveNodes(k, a);
    if !Leaf(k, j) {
      Halves(k, j);
      AboveSelf(j);
      forall i | i in LiveNodes(k, a) ensures !Above(2 * j + 1, i) && !Above(2 * j + 2, i) {
        if Above(2 * j + 1, i) {
          AboveTrans(j, 2 * j + 1, i);
        }
        if Above(2 * j + 2, i) {
          AboveTrans(j, 2 * j + 2, i);
        }
      }
      FreeIsFull(k, a, 2 * j + 1);
      FreeIsFull(k, a, 2 * j + 2);
    }
  }

  lemma AboveSelf(j: nat)
    ensures Above(j, 2 * j + 1) && Above(j, 2 * j + 2)
  {
    assert Above(j, j);
  }

  /** A node above a wholly free one offers at least the free block. */
  lemma {:induction false} FreeIsOffered(k: nat, a: seq<nat>, x: nat, j: nat)
    requires Ok(k, a) && j < |a| && Above(x, j)
    requires WhollyFree(k, LiveNodes(k, a), j)
    ensures x < |a| && a[x] >= Size(k, j)
    decreases j - x
  {
    AboveLess(x, j);
    if x == j {
      forall i | i in LiveNodes(k, a) ensures !Above(j, i) {
        FreeApart(k, LiveNodes(k, a), i, j);
      }
      FreeIsFull(k, a, j);
    } else {
      AboveChild(x, j);
      var y := if Above(2 * x + 1, j) then 2 * x + 1 else 2 * x + 2;
      FreeIsOffered(k, a, y, j);
      DepthInTree(k, x);
      DepthInTree(k, y);
      assert !Leaf(k, x);
      assert NodeOk(k, a, x) && NodeOk(k, a, y);
      if x in LiveNodes(k, a) {
        FreeApart(k, LiveNodes(k, a), x, j);
      }
      Halves(k, x);
    }
  }

  // ----- Updates of one node

  ghost predicate OkBut(k: nat, a: seq<nat>, hole: int) {
    |a| == Nodes(k) && forall i :: 0 <= i < |a| && i != hole ==> NodeOk(k, a, i)
  }

  function ParentOf(i: nat): int {
    if i == 0 then -1 else (i - 1) / 2
  }

  /** A node's condition depends on its own entry and its children's. */
  lemma SameNode(k: nat, a: seq<nat>, b: seq<nat>, i: nat)
    requires |a| == |b| == Nodes(k) && i < |a| && a[i] == b[i]
    requires 2 * i + 2 < |a| ==> a[2 * i + 1] == b[2 * i + 1] && a[2 * i + 2] == b[2 * i + 2]
    ensures NodeOk(k, a, i) <==> NodeOk(k, b, i)
    ensures Live(k, a, i) <==> Live(k, b, i)
  {
    if !Leaf(k, i) {
      Halves(k, i);
    }
  }

  /** A full node has full children. */
  lemma FullChildren(k: nat, a: seq<nat>, j: nat)
    requires OkBut(k, a, -1) && j < |a| && a[j] == Size(k, j) && !Leaf(k, j)
    ensures BothFull(k, a, j)
  {
    Halves(k, j);
    assert NodeOk(k, a, j) && NodeOk(k, a, 2 * j + 1) && NodeOk(k, a, 2 * j + 2);
  }

  /** Changing the entry of node j touches the condition of j and of its parent only. */
  lemma ChangeNode(k: nat, a: seq<nat>, j: nat, v: nat, i: nat)
    requires |a| == Nodes(k) && j < |a| && i < |a| && i != j && i != ParentOf(j)
    ensures NodeOk(k, a, i) <==> NodeOk(k, a[j := v], i)
    ensures Live(k, a, i) <==> Live(k, a[j := v], i)
  {
    SameNode(k, a, a[j := v], i);
  }

  /** Allocating a full node: only its parent's record is out of date. */
  lemma TakeNode(k: nat, a: seq<nat>, j: nat)
    requires Ok(k, a) && j < |a| && a[j] == Size(k, j)
    requires j > 0 ==> a[ParentOf(j)] > 0
    ensures OkBut(k, a[j := 0], ParentOf(j))
    ensures LiveNodes(k, a[j := 0]) == LiveNodes(k, a) + {j}
  {
    var b := a[j := 0];
    if !Leaf(k, j) {
      FullChildren(k, a, j);
      Halves(k, j);
      assert BothFull(k, b, j);
    }
    assert NodeOk(k, b, j) && Live(k, b, j);
    forall i | 0 <= i < |a| && i != ParentOf(j) && i != j
      ensures NodeOk(k, b, i) && (Live(k, b, i) <==> Live(k, a, i))
    {
      assert NodeOk(k, a, i);
      ChangeNode(k, a, j, 0, i);
    }
  }

  /** Recomputing a node whose record is out of date moves the problem to its parent. */
  lemma Restore(k: nat, a: seq<nat>, p: nat, v: nat)
    requires OkBut(k, a, p) && p < |a| && NodeOk(k, a[p := v], p)
    requires !Live(k, a, p) && !Live(k, a[p := v], p)
    requires p > 0 ==> !Live(k, a, ParentOf(p)) && !Live(k, a[p := v], ParentOf(p))
    ensures OkBut(k, a[p := v], ParentOf(p))
    ensures LiveNodes(k, a[p := v]) == LiveNodes(k, a)
  {
    var b := a[p := v];
    forall i | 0 <= i < |a| && i != p && i != ParentOf(p)
      ensures NodeOk(k, b, i) && (Live(k, b, i) <==> Live(k, a, i))
    {
      assert NodeOk(k, a, i);
      ChangeNode(k, a, p, v, i);
    }
  }

  /** What is known about the children of a node, its own record aside. */
  lemma Offers(k: nat, a: seq<nat>, p: nat, v: nat)
    requires OkBut(k, a, p) && p < |a| && !Leaf(k, p)
    ensures 2 * p + 2 < |a| && 2 * Size(k, 2 * p + 1) == Size(k, p)
    ensures a[2 * p + 1] <= Size(k, 2 * p + 1) && a[2 * p + 2] <= Size(k, 2 * p + 1)
    ensures a[2 * p + 1] == a[2 * p + 2] == Size(k, 2 * p + 1) <==> BothFull(k, a, p)
    ensures BothFull(k, a[p := v], p) <==> BothFull(k, a, p)
  {
    Halves(k, p);
    assert NodeOk(k, a, 2 * p + 1) && NodeOk(k, a, 2 * p + 2);
  }

  /** Freeing a live node: only its parent's record is out of date. */
  lemma GiveNode(k: nat, a: seq<nat>, i: nat)
    requires Ok(k, a) && i < |a| && Live(k, a, i)
    ensures OkBut(k, a[i := Size(k, i)], ParentOf(i))
    ensures LiveNodes(k, a[i := Size(k, i)]) == LiveNodes(k, a) - {i}
  {
    var b := a[i := Size(k, i)];
    if !Leaf(k, i) {
      Offers(k, a, i, Size(k, i));
    }
    assert NodeOk(k, b, i) && !Live(k, b, i);
    if i > 0 {
      ParentOfFree(k, a, i);
    }
    forall j | 0 <= j < |a| && j != ParentOf(i) && j != i
      ensures NodeOk(k, b, j) && (Live(k, b, j) <==> Live(k, a, j))
    {
      assert NodeOk(k, a, j);
      ChangeNode(k, a, i, Size(k, i), j);
    }
  }

  /** The parent of a live node is not live, and does not become so by the free. */
  lemma ParentOfFree(k: nat, a: seq<nat>, i: nat)
    requires Ok(k, a) && 0 < i < |a| && Live(k, a, i)
    ensures !Live(k, a, ParentOf(i)) && !Live(k, a[i := Size(k, i)], ParentOf(i))
  {
    var p: nat := ParentOf(i);
    assert i == 2 * p + 1 || i == 2 * p + 2;
    assert NodeOk(k, a, p);
    Offers(k, a, p, 0);
    Halves(k, p);
  }

  /** The recomputation of p from child x on the way up after an allocation. */
  lemma RestoreMax(k: nat, a: seq<nat>, p: nat, x: nat)
    requires (x == 2 * p + 1 || x == 2 * p + 2) && x < |a| && OkBut(k, a, p) && a[x] < Size(k, x)
    requires a[p] > 0 && (p > 0 ==> a[ParentOf(p)] > 0)
    ensures var b := a[p := Max(a[2 * p + 1], a[2 * p + 2])];
      OkBut(k, b, ParentOf(p)) && LiveNodes(k, b) == LiveNodes(k, a) && b[p] < Size(k, p)
  {
    var v := Max(a[2 * p + 1], a[2 * p + 2]);
    ParentInTree(k, p, x);
    Offers(k, a, p, v);
    Restore(k, a, p, v);
  }

  lemma ParentInTree(k: nat, p: nat, x: nat)
    requires (x == 2 * p + 1 || x == 2 * p + 2) && x < Nodes(k)
    ensures !Leaf(k, p) && 2 * p + 2 < Nodes(k) && Size(k, p) == 2 * Size(k, x)
  {
    DepthInTree(k, p);
    DepthInTree(k, x);
    Halves(k, p);
  }

  function Merged(l: nat, r: nat, node_size: nat): nat {
    if l + r == node_size then node_size else Max(l, r)
  }

  /** The recomputation of p from child x on the way up after a free, which joins
      two free buddies. */
  lemma RestoreMerged(k: nat, a: seq<nat>, p: nat, x: nat)
    requires (x == 2 * p + 1 || x == 2 * p + 2) && x < |a| && OkBut(k, a, p) && a[x] > 0
    requires !Live(k, a, p) && a[p] < Size(k, p)
    ensures 2 * p + 2 < |a| && var b := a[p := Merged(a[2 * p + 1], a[2 * p + 2], Size(k, p))];
      OkBut(k, b, ParentOf(p)) && LiveNodes(k, b) == LiveNodes(k, a) && b[p] > 0
      && (p > 0 ==> !Live(k, b, ParentOf(p)))
  {
    ParentInTree(k, p, x);
    var v := Merged(a[2 * p + 1], a[2 * p + 2], Size(k, p));
    Offers(k, a, p, v);
    if p > 0 {
      GrandparentNotLive(k, a, p, v);
    }
    Restore(k, a, p, v);
  }

  lemma PathUpTo(child: nat, p: nat)
    requires child > 0 && p == ParentOf(child)
    ensures Above(p, child)
    ensures forall y :: 0 <= y < p && Above(y, p) ==> Above(y, child)
    ensures p > 0 ==> Above(ParentOf(p), child)
  {
    assert Above(p, p);
    if p > 0 {
      assert Above(ParentOf(p), ParentOf(p)) && Above(ParentOf(p), p);
    }
  }

  /** On the way up from node i of this size only its parent may be wrong, and no node above it is full. */
  ghost predicate Climbs(k: nat, a: seq<nat>, i: nat, size: nat, live: set<nat>) {
    i < |a| == Nodes(k) && size == Size(k, i) && OkBut(k, a, ParentOf(i)) && LiveNodes(k, a) == live
    && a[i] > 0 && (i > 0 ==> !Live(k, a, ParentOf(i)))
    && forall y :: 0 <= y < i && Above(y, i) ==> a[y] < Size(k, y)
  }

  lemma ClimbStep(k: nat, a: seq<nat>, child: nat, i: nat, size: nat, live: set<nat>)
    requires child > 0 && i == (child + 1) / 2 - 1 && size % 2 == 0 && Climbs(k, a, child, size / 2, live)
    ensures 2 * i + 2 < |a| && size == Size(k, i)
    ensures Climbs(k, a[i := Merged(a[2 * i + 1], a[2 * i + 2], size)], i, size, live)
  {
    assert child == 2 * i + 1 || child == 2 * i + 2;
    ParentInTree(k, i, child);
    PathUpTo(child, i);
    RestoreMerged(k, a, i, child);
  }

  lemma GrandparentNotLive(k: nat, a: seq<nat>, p: nat, v: nat)
    requires 0 < p < |a| && OkBut(k, a, p) && a[p] < Size(k, p)
    ensures !Live(k, a, ParentOf(p)) && !Live(k, a[p := v], ParentOf(p))
  {
    var q: nat := ParentOf(p);
    assert p == 2 * q + 1 || p == 2 * q + 2;
    ParentInTree(k, q, p);
    assert NodeOk(k, a, q);
    Halves(k, q);
  }

  /** The depth grows exactly where i + 1 is a power of two. */
  lemma {:induction false} DepthStep(i: nat)
    requires i > 0
    ensures Depth(i) == Depth(i - 1) + (if IsPow2(i + 1) then 1 else 0)
  {
    if i % 2 == 1 {
      assert IsPow2(i + 1) <==> IsPow2((i + 1) / 2);
      if i > 1 {
        DepthStep((i - 1) / 2);
      }
    } else {
      assert (i - 1) / 2 == (i - 2) / 2;
    }
  }

  lemma SizeStep(k: nat, i: nat)
    requires 0 < i < Nodes(k)
    ensures Size(k, i) == if MacroIsPow2(i + 1) then Size(k, i - 1) / 2 else Size(k, i - 1)
  {
    MacroCorrect(i + 1);
    DepthStep(i);
    DepthInTree(k, i);
  }

  // ----- Descending to a free block

  lemma HalfStillFits(k: nat, i: nat, want: nat)
    requires i < Nodes(k) && IsPow2(want) && want < Size(k, i)
    ensures !Leaf(k, i) && 2 * want <= Size(k, i)
  {
    var e := ExponentOf(want);
    DepthInTree(k, i);
    var f: nat := k - Depth(i);
    if f < e {
      Pow2Monotone(f, e);
    } else if e < f {
      Pow2Monotone(e, f);
    }
  }

  /** Some child of a node offering `want` units offers them too. */
  lemma ChildOffers(k: nat, a: seq<nat>, i: nat, want: nat)
    requires Ok(k, a) && i < |a| && IsPow2(want) && want <= a[i] && want < Size(k, i)
    ensures 2 * i + 2 < |a| && (want <= a[2 * i + 1] || want <= a[2 * i + 2])
    ensures Size(k, 2 * i + 1) == Size(k, 2 * i + 2) && Size(k, i) == 2 * Size(k, 2 * i + 1)
  {
    HalfStillFits(k, i, want);
    Halves(k, i);
    assert NodeOk(k, a, i);
  }

  /** Every wholly free block of the wanted size lies under node i or after it. */
  ghost predicate UnderOrAfter(k: nat, live: set<nat>, i: nat, want: nat)
    requires i < Nodes(k)
  {
    forall j :: 0 <= j < Nodes(k) && Size(k, j) == want && WhollyFree(k, live, j) ==>
      Above(i, j) || Off(k, i) + Size(k, i) <= Off(k, j)
  }

  /** Preferring the left child keeps the search on the first such block. */
  lemma DescendFirst(k: nat, a: seq<nat>, i: nat, want: nat, child: nat)
    requires Ok(k, a) && 2 * i + 2 < |a| && want < Size(k, i)
    requires UnderOrAfter(k, LiveNodes(k, a), i, want)
    requires child == if a[2 * i + 1] >= want then 2 * i + 1 else 2 * i + 2
    ensures UnderOrAfter(k, LiveNodes(k, a), child, want)
  {
    ParentInTree(k, i, 2 * i + 1);
    Halves(k, i);
    forall j | 0 <= j < Nodes(k) && Size(k, j) == want && WhollyFree(k, LiveNodes(k, a), j)
      ensures Above(child, j) || Off(k, child) + Size(k, child) <= Off(k, j)
    {
      if Above(i, j) {
        AboveChild(i, j);
        if Above(2 * i + 1, j) {
          FreeIsOffered(k, a, 2 * i + 1, j);
        } else {
          BlockNested(k, 2 * i + 2, j);
        }
      }
    }
  }

  /** On the way down to the first free block of this size: node i, its size, offers one. */
  ghost predicate Descends(k: nat, a: seq<nat>, i: nat, size: nat, want: nat) {
    i < |a| == Nodes(k) && size == Size(k, i) && want <= a[i] <= size
    && (forall y :: 0 <= y < i && Above(y, i) ==> a[y] > 0) && UnderOrAfter(k, LiveNodes(k, a), i, want)
  }

  lemma DescendStep(k: nat, a: seq<nat>, i: nat, size: nat, want: nat)
    requires Ok(k, a) && Descends(k, a, i, size, want) && IsPow2(want) && want != size
    ensures 2 * i + 2 < |a|
    ensures Descends(k, a, if a[2 * i + 1] >= want then 2 * i + 1 else 2 * i + 2, size / 2, want)
  {
    ChildOffers(k, a, i, want);
    var child := if a[2 * i + 1] >= want then 2 * i + 1 else 2 * i + 2;
    DescendFirst(k, a, i, want, child);
    assert NodeOk(k, a, child) && want > 0;
    forall y | 0 <= y < child && Above(y, child) ensures a[y] > 0 {
      assert (child - 1) / 2 == i && Above(y, i);
    }
  }

  /** A refusal is justified: no block of the wanted size is wholly free. */
  lemma NoneFree(k: nat, a: seq<nat>, want: nat)
    requires Ok(k, a) && a[0] < want
    ensures forall j :: 0 <= j < Nodes(k) && Size(k, j) == want ==> !WhollyFree(k, LiveNodes(k, a), j)
  {
    forall j | 0 <= j < Nodes(k) && Size(k, j) == want ensures !WhollyFree(k, LiveNodes(k, a), j) {
      if WhollyFree(k, LiveNodes(k, a), j) {
        RootAbove(j);
        FreeIsOffered(k, a, 0, j);
        assert false;
      }
    }
  }

  // ----- The allocator

  /** The initialising loop, which halves the size wherever a level begins. */
  method FillSizes(longest: array<nat>, size: nat, ghost k: nat)
    requires size == Pow2(k) && longest.Length == Nodes(k)
    modifies longest
    ensures forall j :: 0 <= j < longest.Length ==> longest[j] == Size(k, j)
  {
    var node_size: nat, i := size * 2, 0;
    while i < 2 * size - 1
      invariant 0 <= i <= longest.Length
      invariant node_size == if i == 0 then size * 2 else Size(k, i - 1)
      invariant forall j :: 0 <= j < i ==> longest[j] == Size(k, j)
    {
      if i > 0 {
        SizeStep(k, i);
      }
      if MacroIsPow2(i + 1) {
        node_size := node_size / 2;
      }
      longest[i] := node_size;
      i := i + 1;
    }
  }

  class Allocator {
    var size: nat
    var longest: array<nat>
    ghost var levels: nat

    ghost predicate Valid()
      reads this, longest
    {
      size == Pow2(levels) && Ok(levels, longest[..])
    }

    /** The nodes allocated as one block. */
    ghost function Allocated(): set<nat>
      requires Valid()
      reads this, longest
    {
      LiveNodes(levels, longest[..])
    }

    constructor Blank(size: nat)
      requires size > 0
      ensures fresh(longest) && this.size == size && longest.Length == 2 * size - 1
    {
      this.size := size;
      longest := new nat[2 * size - 1];
      levels := 0;
    }

    /** buddy2_new; null for a size that is not a positive power of two.  Twice the size overflows an int from 2^30
        units on, and what happens then is not defined. */
    static method New(size: int) returns (self: Allocator?, overflow: bool)
      ensures overflow <==> size >= 0x4000_0000 && IsPow2(size)
      ensures self == null <==> size < 1 || !IsPow2(size) || overflow
      ensures self != null ==> fresh(self) && fresh(self.longest) && self.Valid()
      ensures self != null ==> self.size == size && self.Allocated() == {}
    {
      if size >= 1 {
        MacroCorrect(size);
      }
      if size < 1 || !MacroIsPow2(size) {
        return null, false;
      }
      overflow := 2 * size > 0x7FFF_FFFF;
      if overflow {
        return null, overflow;
      }
      var b := new Allocator.Blank(size);
      b.levels := ExponentOf(size);
      FillSizes(b.longest, size, b.levels);
      AllFree(b.levels, b.longest[..]);
      self := b;
    }

    /** The way down: the first wholly free block of `want` units. */
    method Descend(want: nat) returns (index: nat, node_size: nat)
      requires Valid() && IsPow2(want) && want <= longest[0]
      ensures index < Nodes(levels) && node_size == want == Size(levels, index) == longest[index]
      ensures forall y :: 0 <= y < index && Above(y, index) ==> longest[y] > 0
      ensures UnderOrAfter(levels, Allocated(), index, want)
    {
      ghost var k, a := levels, longest[..];
      index, node_size := 0, this.size;
      assert NodeOk(k, a, 0);
      assert UnderOrAfter(k, LiveNodes(k, a), 0, want) by {
        forall j ensures Above(0, j) { RootAbove(j); }
      }
      while node_size != want
        invariant index < |a| && Descends(k, a, index, node_size, want)
      {
        DescendStep(k, a, index, node_size, want);
        index := if longest[2 * index + 1] >= want then 2 * index + 1 else 2 * index + 2;
        node_size := node_size / 2;
      }
    }

    /** The way up after an allocation. */
    method Ascend(start: nat, ghost live: set<nat>)
      requires longest.Length == Nodes(levels) && start < longest.Length
      requires OkBut(levels, longest[..], ParentOf(start)) && LiveNodes(levels, longest[..]) == live
      requires longest[start] < Size(levels, start)
      requires forall y :: 0 <= y < start && Above(y, start) ==> longest[y] > 0
      modifies longest
      ensures Ok(levels, longest[..]) && LiveNodes(levels, longest[..]) == live
    {
      ghost var k := levels;
      var index: nat := start;
      while index != 0
        invariant index < longest.Length == Nodes(k)
        invariant OkBut(k, longest[..], ParentOf(index)) && LiveNodes(k, longest[..]) == live
        invariant longest[index] < Size(k, index)
        invariant forall y :: 0 <= y < index && Above(y, index) ==> longest[y] > 0
      {
        var child := index;
        assert 2 <= index + 1;
        index := (index + 1) / 2 - 1;
        assert child == 2 * index + 1 || child == 2 * index + 2;
        ghost var now := longest[..];
        PathUp(now, child);
        RestoreMax(k, now, index, child);
        longest[index] := Max(longest[2 * index + 1], longest[2 * index + 2]);
        assert longest[..] == now[index := longest[index]];
      }
    }

    /** buddy2_alloc.  The block handed out is the first wholly free one of the
        rounded size; -1 means that there is none. */
    method Alloc(size: int) returns (offset: int, ghost node: nat)
      requires Valid() && size < 0x8000_0000
      modifies longest
      ensures Valid()
      ensures var want := CeilPow2(if size <= 0 then 1 else size);
        if offset == -1 then
          longest[..] == old(longest[..])
          && forall j :: 0 <= j < Nodes(levels) && Size(levels, j) == want ==> !WhollyFree(levels, old(Allocated()), j)
        else
          node < Nodes(levels) && Size(levels, node) == want && WhollyFree(levels, old(Allocated()), node)
          && offset == Off(levels, node) && Allocated() == old(Allocated()) + {node}
          && forall j :: 0 <= j < Nodes(levels) && Size(levels, j) == want && WhollyFree(levels, old(Allocated()), j)
               ==> offset <= Off(levels, j)
    {
      var want := Round(size);
      CeilIsLeast(if size <= 0 then 1 else size);
      ghost var k, a := levels, longest[..];
      node := 0;
      if longest[0] < want {
        NoneFree(k, a, want);
        return -1, 0;
      }
      var index, node_size := Descend(want);
      node := index;
      FirstFound(k, a, node);
      FirstIsLeast(k, LiveNodes(k, a), node, want);
      TakeNode(k, a, node);
      OffsetFormula(k, node);
      longest[index] := 0;
      offset := (index + 1) * node_size - this.size;
      assert longest[..] == a[node := 0];
      Ascend(index, LiveNodes(k, a) + {node});
    }

    /** The way up after a free. */
    method AscendMerging(start: nat, start_size: nat, ghost live: set<nat>)
      requires longest.Length == Nodes(levels) && start < longest.Length && start_size == Size(levels, start)
      requires OkBut(levels, longest[..], ParentOf(start)) && LiveNodes(levels, longest[..]) == live
      requires longest[start] > 0 && (start > 0 ==> !Live(levels, longest[..], ParentOf(start)))
      requires forall y :: 0 <= y < start && Above(y, start) ==> longest[y] < Size(levels, y)
      modifies longest
      ensures Ok(levels, longest[..]) && LiveNodes(levels, longest[..]) == live
    {
      ghost var k := levels;
      var index: nat, node_size := start, start_size;
      while index != 0
        invariant index < longest.Length && Climbs(k, longest[..], index, node_size, live)
      {
        ghost var child, now := index, longest[..];
        index := (index + 1) / 2 - 1;
        node_size := node_size * 2;
        ClimbStep(k, now, child, index, node_size, live);
        var left_longest, right_longest := longest[2 * index + 1], longest[2 * index + 2];
        if left_longest + right_longest == node_size {
          longest[index] := node_size;
        } else {
          longest[index] := Max(left_longest, right_longest);
        }
        assert longest[..] == now[index := Merged(now[2 * index + 1], now[2 * index + 2], node_size)];
      }
    }

    /** buddy2_free.  Any offset inside a live block frees that block; an offset in no
        live block changes nothing. */
    method Free(offset: nat)
      requires Valid() && offset < size
      modifies longest
      ensures Valid()
      ensures forall i :: i in old(Allocated()) && Above(i, Unit(levels, offset)) ==>
                Allocated() == old(Allocated()) - {i}
      ensures !Busy(levels, old(Allocated()), offset) ==> longest[..] == old(longest[..])
    {
      ghost var k, a, u := levels, longest[..], Unit(levels, offset);
      var node_size: nat, index: nat := 1, offset + size - 1;
      while longest[index] != 0
        invariant index <= u && u < |a| && Above(index, u) && node_size == Size(k, index)
        invariant longest[..] == a
        invariant forall y :: index < y <= u && Above(y, u) ==> a[y] > 0
        decreases index
      {
        node_size := node_size * 2;
        if index == 0 {
          NothingAbove(k, a, u);
          return;
        }
        StepUp(k, a, index, u);
        index := (index + 1) / 2 - 1;
      }
      StopIsLive(k, a, index, u);
      OnlyOneAbove(k, a, index, u);
      GiveNode(k, a, index);
      if index > 0 {
        ParentOfFree(k, a, index);
      }
      NoFullAbove(k, a, index);
      longest[index] := node_size;
      assert longest[..] == a[index := Size(k, index)];
      AscendMerging(index, node_size, LiveNodes(k, a) - {index});
    }

    /** buddy2_size.  The walk up has no check for the root: for an offset in no live
        block the index runs past it, which None stands for. */
    method SizeOf(offset: nat) returns (r: Option<nat>)
      requires Valid() && offset < size
      ensures r.Some? <==> Busy(levels, Allocated(), offset)
      ensures forall i :: i in Allocated() && Above(i, Unit(levels, offset)) ==> r == Some(Size(levels, i))
    {
      ghost var k, a, u := levels, longest[..], Unit(levels, offset);
      var node_size: nat, index: nat := 1, offset + size - 1;
      while longest[index] != 0
        invariant index <= u && u < |a| && Above(index, u) && node_size == Size(k, index)
        invariant forall y :: index < y <= u && Above(y, u) ==> a[y] > 0
        decreases index
      {
        node_size := node_size * 2;
        if index == 0 {
          NothingAbove(k, a, u);
          return None;
        }
        StepUp(k, a, index, u);
        index := (index + 1) / 2 - 1;
      }
      StopIsLive(k, a, index, u);
      OnlyOneAbove(k, a, index, u);
      r := Some(node_size);
    }
  }

  /** One step of the walk up to the root from the unit's node. */
  lemma StepUp(k: nat, a: seq<nat>, x: nat, u: nat)
    requires |a| == Nodes(k) && 0 < x <= u < |a| && Above(x, u) && a[x] > 0
    requires forall y :: x < y <= u && Above(y, u) ==> a[y] > 0
    ensures var p := (x + 1) / 2 - 1;
      p == ParentOf(x) && Above(p, u) && Size(k, p) == 2 * Size(k, x)
      && forall y :: p < y <= u && Above(y, u) ==> a[y] > 0
  {
    var p: nat := ParentOf(x);
    ParentInTree(k, p, x);
    assert Above(p, p) && Above(p, x);
    AboveTrans(p, x, u);
    forall y | p < y <= u && Above(y, u) ensures a[y] > 0 {
      AboveChain(x, y, u);
      if Above(y, x) && y != x {
        AboveLess(y, p);
        assert false;
      }
      if Above(x, y) {
        AboveLess(x, y);
      }
    }
  }

  lemma NothingAbove(k: nat, a: seq<nat>, u: nat)
    requires |a| == Nodes(k) && u < |a| && forall y :: 0 <= y <= u && Above(y, u) ==> a[y] > 0
    ensures forall i :: i in LiveNodes(k, a) ==> !Above(i, u)
  {
    forall i | i in LiveNodes(k, a) ensures !Above(i, u) {
      if Above(i, u) {
        AboveLess(i, u);
      }
    }
  }

  /** The first zero on the way up is a block allocated as one. */
  lemma StopIsLive(k: nat, a: seq<nat>, x: nat, u: nat)
    requires Ok(k, a) && x <= u < |a| && Above(x, u) && Leaf(k, u) && a[x] == 0
    requires forall y :: x < y <= u && Above(y, u) ==> a[y] > 0
    ensures Live(k, a, x)
  {
    if x != u {
      AboveChild(x, u);
      var y := if Above(2 * x + 1, u) then 2 * x + 1 else 2 * x + 2;
      AboveLess(y, u);
      ParentInTree(k, x, y);
      assert NodeOk(k, a, x);
    }
  }

  lemma OnlyOneAbove(k: nat, a: seq<nat>, x: nat, u: nat)
    requires Ok(k, a) && u < |a| && x in LiveNodes(k, a) && Above(x, u)
    ensures forall i :: i in LiveNodes(k, a) && Above(i, u) ==> i == x
  {
    forall i | i in LiveNodes(k, a) && Above(i, u) ensures i == x {
      AboveChain(i, x, u);
      if i != x {
        if Above(i, x) {
          FullBelow(k, a, i, x);
        } else {
          FullBelow(k, a, x, i);
        }
        assert false;
      }
    }
  }

  lemma NoFullAbove(k: nat, a: seq<nat>, i: nat)
    requires Ok(k, a) && i < |a| && a[i] == 0
    ensures forall y :: 0 <= y < i && Above(y, i) ==> a[y] < Size(k, y)
  {
    forall y | 0 <= y < i && Above(y, i) ensures a[y] < Size(k, y) {
      assert NodeOk(k, a, y);
      if a[y] == Size(k, y) {
        FullBelow(k, a, y, i);
        assert false;
      }
    }
  }

  /** Freeing what was just allocated restores the array exactly. */
  lemma AllocFreeRestores(k: nat, before: seq<nat>, during: seq<nat>, after: seq<nat>, node: nat)
    requires Ok(k, before) && Ok(k, during) && Ok(k, after)
    requires node < Nodes(k) && WhollyFree(k, LiveNodes(k, before), node)
    requires LiveNodes(k, during) == LiveNodes(k, before) + {node}
    requires LiveNodes(k, after) == LiveNodes(k, during) - {node}
    ensures after == before
  {
    assert node !in LiveNodes(k, before) by {
      assert Above(node, node);
      if node in LiveNodes(k, before) {
        FreeApart(k, LiveNodes(k, before), node, node);
        assert false;
      }
    }
    forall i | 0 <= i < |before| ensures after[i] == before[i] {
      Canonical(k, after, before, i);
    }
  }

  lemma FirstIsLeast(k: nat, live: set<nat>, i: nat, want: nat)
    requires i < Nodes(k) && UnderOrAfter(k, live, i, want)
    ensures forall j :: 0 <= j < Nodes(k) && Size(k, j) == want && WhollyFree(k, live, j) ==> Off(k, i) <= Off(k, j)
  {
    forall j | 0 <= j < Nodes(k) && Size(k, j) == want && WhollyFree(k, live, j) ensures Off(k, i) <= Off(k, j) {
      if Above(i, j) {
        BlockNested(k, i, j);
      }
    }
  }

  /** The strict ancestors of a child are its parent and the parent's ancestors. */
  lemma PathUp(a: seq<nat>, child: nat)
    requires 0 < child < |a|
    requires forall y :: 0 <= y < child && Above(y, child) ==> a[y] > 0
    ensures a[ParentOf(child)] > 0
    ensures forall y :: 0 <= y < ParentOf(child) && Above(y, ParentOf(child)) ==> a[y] > 0
    ensures ParentOf(child) > 0 ==> a[ParentOf(ParentOf(child))] > 0
  {
    var p: nat := ParentOf(child);
    assert Above(p, p) && Above(p, child);
    if p > 0 {
      assert Above(ParentOf(p), ParentOf(p)) && Above(ParentOf(p), p);
    }
    forall y | 0 <= y < p && Above(y, p) ensures a[y] > 0 {
      assert Above(y, child);
    }
  }

  /** A full node with no zero above it is wholly free. */
  lemma FirstFound(k: nat, a: seq<nat>, j: nat)
    requires Ok(k, a) && j < |a| && a[j] == Size(k, j)
    requires forall y :: 0 <= y < j && Above(y, j) ==> a[y] > 0
    ensures WhollyFree(k, LiveNodes(k, a), j)
    ensures j > 0 ==> a[ParentOf(j)] > 0
  {
    forall i | i in LiveNodes(k, a) ensures !Above(i, j) {
      if Above(i, j) {
        AboveLess(i, j);
      }
    }
    FullIsFree(k, a, j);
    if j > 0 {
      assert Above(ParentOf(j), ParentOf(j)) && Above(ParentOf(j), j);
    }
  }

  lemma AllFree(k: nat, a: seq<nat>)
    requires |a| == Nodes(k) && forall i :: 0 <= i < |a| ==> a[i] == Size(k, i)
    ensures Ok(k, a) && LiveNodes(k, a) == {}
  {
    forall i | 0 <= i < |a| ensures NodeOk(k, a, i) {
      if !Leaf(k, i) {
        Halves(k, i);
      }
    }
  }
}
