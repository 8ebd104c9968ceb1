/** The K&R allocator: a circular list of free blocks in address order, kept in the
    headers of the blocks themselves.

    Addresses count header-sized units.  `base` is the static zero-size header, below
    everything sbrk returns.  `ring` is the free list as a sequence, `live` the
    headers of the blocks handed out, and `owner` maps every unit obtained from sbrk
    to the header of the one block that it belongs to. */
module KrMalloc {
  import opened Quotients
  import opened Wrappers

  type Headers = map<int, int>

  // ----- The free list as a sequence

  function Next(ring: seq<int>, i: nat): nat {
    if i + 1 < |ring| then i + 1 else 0
  }

  ghost predicate Increasing(ring: seq<int>) {
    forall i, j :: 0 <= i < j < |ring| ==> ring[i] < ring[j]
  }

  ghost predicate Sized(base: int, ring: seq<int>, size: Headers) {
    |ring| > 0 && ring[0] == base && base in size && size[base] == 0 &&
    forall i :: 1 <= i < |ring| ==> ring[i] in size && size[ring[i]] >= 1
  }

  ghost predicate LinkAt(ring: seq<int>, ptr: Headers, i: nat)
    requires i < |ring|
  {
    ring[i] in ptr && ptr[ring[i]] == ring[Next(ring, i)]
  }

  ghost predicate Links(ring: seq<int>, ptr: Headers) {
    forall i :: 0 <= i < |ring| ==> LinkAt(ring, ptr, i)
  }

  /** The block at position i ends at least `gap` units before the next one. */
  ghost predicate Gap(ring: seq<int>, size: Headers, gap: nat, i: nat)
    requires i < |ring|
  {
    ring[i] in size && (i + 1 < |ring| ==> ring[i] + size[ring[i]] + gap <= ring[i + 1])
  }

  /** The headers in `ring` form a cycle in increasing address order from `base`, and
      their blocks do not overlap. */
  ghost predicate Chain(base: int, ring: seq<int>, ptr: Headers, size: Headers) {
    Sized(base, ring, size) && Increasing(ring) && Links(ring, ptr) &&
    forall i :: 0 <= i < |ring| ==> Gap(ring, size, 0, i)
  }

  /** ... and no two of them touch. */
  ghost predicate RingOk(base: int, ring: seq<int>, ptr: Headers, size: Headers) {
    Chain(base, ring, ptr, size) && forall i :: 0 <= i < |ring| ==> Gap(ring, size, 1, i)
  }

  ghost function FreeHeads(ring: seq<int>): set<int> {
    set i | 1 <= i < |ring| :: ring[i]
  }

  /** f is the last header of the ring below bp. */
  ghost predicate LastBelow(ring: seq<int>, bp: int, f: int) {
    f in ring && f < bp && forall x :: x in ring && f < x ==> bp < x
  }

  /** The last header of the ring below bp. */
  ghost predicate Slot(ring: seq<int>, bp: int, k: nat) {
    k < |ring| && ring[k] < bp && (k + 1 < |ring| ==> bp < ring[k + 1])
  }

  lemma SlotExists(base: int, ring: seq<int>, ptr: Headers, size: Headers, bp: int) returns (k: nat)
    requires Chain(base, ring, ptr, size) && base < bp && bp !in ring
    ensures Slot(ring, bp, k)
  {
    k := 0;
    while k + 1 < |ring| && ring[k + 1] < bp
      invariant k < |ring| && ring[k] < bp
    {
      k := k + 1;
    }
  }

  /** The search condition of kr_free holds at the slot and nowhere else. */
  lemma SlotStops(base: int, ring: seq<int>, ptr: Headers, bp: int, k: nat, i: nat)
    requires |ring| > 0 && ring[0] == base && Increasing(ring) && base < bp && Slot(ring, bp, k)
    requires i < |ring| && LinkAt(ring, ptr, i)
    ensures var p, q := ring[i], ptr[ring[i]];
      (p < bp < q || (p >= q && (bp > p || bp < q))) <==> i == k
  {
    if i < k {
      assert ring[i + 1] <= ring[k];
    }
    if k < i {
      assert bp < ring[k + 1] <= ring[i];
    }
  }

  ghost function Inserted(ring: seq<int>, bp: int, k: nat): (r: seq<int>)
    requires k < |ring|
    ensures |r| == |ring| + 1
    ensures forall i :: 0 <= i < |r| ==> r[i] == if i <= k then ring[i] else if i == k + 1 then bp else ring[i - 1]
  {
    ring[..k + 1] + [bp] + ring[k + 1..]
  }

  ghost function Deleted(ring: seq<int>, k: nat): (r: seq<int>)
    requires k < |ring|
    ensures |r| == |ring| - 1
    ensures forall i :: 0 <= i < |r| ==> r[i] == if i < k then ring[i] else ring[i + 1]
  {
    ring[..k] + ring[k + 1..]
  }

  lemma InsertIncreasing(ring: seq<int>, bp: int, k: nat)
    requires Increasing(ring) && Slot(ring, bp, k)
    ensures Increasing(Inserted(ring, bp, k))
  {
    var ring' := Inserted(ring, bp, k);
    forall i, j | 0 <= i < j < |ring'| ensures ring'[i] < ring'[j] {
      if i == k + 1 {
        assert ring[k + 1] <= ring[j - 1];
      } else if j == k + 1 {
        assert ring[i] <= ring[k];
      }
    }
  }

  lemma InsertLinks(ring: seq<int>, ptr: Headers, bp: int, k: nat)
    requires Links(ring, ptr) && Increasing(ring) && Slot(ring, bp, k)
    ensures ring[k] in ptr && Links(Inserted(ring, bp, k), ptr[bp := ptr[ring[k]]][ring[k] := bp])
  {
    assert LinkAt(ring, ptr, k);
    var ring' := Inserted(ring, bp, k);
    var ptr' := ptr[bp := ptr[ring[k]]][ring[k] := bp];
    InsertIncreasing(ring, bp, k);
    forall i | 0 <= i < |ring'| ensures LinkAt(ring', ptr', i) {
      if i != k && i != k + 1 {
        assert LinkAt(ring, ptr, if i < k then i else i - 1);
        assert ring'[i] != ring'[k] && ring'[i] != ring'[k + 1];
      }
    }
  }

  /** Linking block bp in behind position k. */
  lemma ChainInsert(base: int, ring: seq<int>, ptr: Headers, size: Headers, bp: int, k: nat)
    requires Chain(base, ring, ptr, size) && Slot(ring, bp, k) && ring[k] in size
    requires bp in size && size[bp] >= 1 && ring[k] + size[ring[k]] <= bp
    requires k + 1 < |ring| ==> bp + size[bp] <= ring[k + 1]
    ensures ring[k] in ptr && Chain(base, Inserted(ring, bp, k), ptr[bp := ptr[ring[k]]][ring[k] := bp], size)
  {
    InsertIncreasing(ring, bp, k);
    InsertLinks(ring, ptr, bp, k);
    var ring' := Inserted(ring, bp, k);
    forall i | 1 <= i < |ring'| ensures ring'[i] in size && size[ring'[i]] >= 1 {
      assert ring'[i] == if i <= k then ring[i] else if i == k + 1 then bp else ring[i - 1];
    }
    forall i | 0 <= i < |ring'| ensures Gap(ring', size, 0, i) {
      if i != k && i != k + 1 {
        assert Gap(ring, size, 0, if i < k then i else i - 1);
      }
    }
  }

  lemma DeleteLinks(ring: seq<int>, ptr: Headers, k: nat)
    requires Links(ring, ptr) && Increasing(ring) && 1 <= k < |ring|
    ensures ring[k] in ptr && Links(Deleted(ring, k), ptr[ring[k - 1] := ptr[ring[k]]])
  {
    assert LinkAt(ring, ptr, k);
    var ring', ptr' := Deleted(ring, k), ptr[ring[k - 1] := ptr[ring[k]]];
    forall i | 0 <= i < |ring'| ensures LinkAt(ring', ptr', i) {
      if i != k - 1 {
        assert LinkAt(ring, ptr, if i < k then i else i + 1);
        assert ring'[i] != ring[k - 1];
      }
    }
  }

  lemma MergeGaps(base: int, ring: seq<int>, size: Headers, k: nat)
    requires Sized(base, ring, size) && Increasing(ring) && 1 <= k && k + 1 < |ring|
    requires forall i :: 0 <= i < |ring| ==> Gap(ring, size, 0, i)
    requires ring[k] + size[ring[k]] == ring[k + 1]
    ensures var ring', size' := Deleted(ring, k + 1), size[ring[k] := size[ring[k]] + size[ring[k + 1]]];
      Sized(base, ring', size') && forall i :: 0 <= i < |ring'| ==> Gap(ring', size', 0, i)
  {
    assert Gap(ring, size, 0, k + 1);
    var ring', size' := Deleted(ring, k + 1), size[ring[k] := size[ring[k]] + size[ring[k + 1]]];
    forall i | 0 <= i < |ring'| ensures Gap(ring', size', 0, i) {
      if i != k {
        assert Gap(ring, size, 0, if i < k then i else i + 1);
        assert ring'[i] != ring[k];
      }
    }
  }

  /** Joining the block at position k with the one after it, which it touches. */
  lemma ChainMerge(base: int, ring: seq<int>, ptr: Headers, size: Headers, k: nat)
    requires Chain(base, ring, ptr, size) && 1 <= k && k + 1 < |ring|
    requires ring[k] in size && ring[k] + size[ring[k]] == ring[k + 1]
    ensures ring[k + 1] in ptr && ring[k + 1] in size
    ensures var a, b := ring[k], ring[k + 1];
      Chain(base, Deleted(ring, k + 1), ptr[a := ptr[b]], size[a := size[a] + size[b]])
  {
    DeleteLinks(ring, ptr, k + 1);
    MergeGaps(base, ring, size, k);
  }

  /** Unlinking the block at position k. */
  lemma ChainRemove(base: int, ring: seq<int>, ptr: Headers, size: Headers, k: nat)
    requires RingOk(base, ring, ptr, size) && 1 <= k < |ring|
    ensures ring[k] in ptr && RingOk(base, Deleted(ring, k), ptr[ring[k - 1] := ptr[ring[k]]], size)
  {
    DeleteLinks(ring, ptr, k);
    var ring' := Deleted(ring, k);
    forall i | 0 <= i < |ring'| ensures Gap(ring', size, 0, i) && Gap(ring', size, 1, i) {
      assert Gap(ring, size, 1, if i < k then i else i + 1);
      if i == k - 1 {
        assert Gap(ring, size, 1, k);
      }
    }
  }

  // ----- Which block owns which unit

  ghost predicate OwnsBlock(a: int, size: Headers, owner: Headers) {
    a in size && size[a] >= 1 && forall u :: a <= u < a + size[a] ==> u in owner && owner[u] == a
  }

  ghost predicate Owned(u: int, heads: set<int>, size: Headers, owner: Headers) {
    u in owner && owner[u] in heads && owner[u] in size && owner[u] <= u < owner[u] + size[owner[u]]
  }

  /** Every block of `heads` owns its units, and every owned unit lies in its block. */
  ghost predicate Tiled(heads: set<int>, size: Headers, owner: Headers) {
    (forall a :: a in heads ==> OwnsBlock(a, size, owner)) &&
    (forall u :: u in owner ==> Owned(u, heads, size, owner))
  }

  lemma TiledApart(heads: set<int>, size: Headers, owner: Headers, a: int, b: int)
    requires Tiled(heads, size, owner) && a in heads && b in heads && a < b
    ensures a in size && b in size && size[b] >= 1 && a + size[a] <= b
  {
    assert OwnsBlock(a, size, owner) && OwnsBlock(b, size, owner);
    assert b in owner && owner[b] == b;
  }

  ghost function Renamed(owner: Headers, from: int, b: int, a: int): Headers {
    map u | u in owner :: if owner[u] == b && from <= u then a else owner[u]
  }

  lemma TiledMerge(heads: set<int>, size: Headers, owner: Headers, a: int, b: int)
    requires Tiled(heads, size, owner) && a in heads && b in heads && a in size && a + size[a] == b
    ensures b in size && size[b] >= 1
    ensures Tiled(heads - {b}, size[a := size[a] + size[b]], Renamed(owner, b, b, a))
  {
    assert OwnsBlock(a, size, owner) && OwnsBlock(b, size, owner);
    var heads', size', owner' := heads - {b}, size[a := size[a] + size[b]], Renamed(owner, b, b, a);
    forall x | x in heads' ensures OwnsBlock(x, size', owner') {
      assert OwnsBlock(x, size, owner);
    }
    forall u | u in owner' ensures Owned(u, heads', size', owner') {
      assert Owned(u, heads, size, owner);
    }
  }

  lemma SplitBlock(heads: set<int>, size: Headers, owner: Headers, a: int, n: int, x: int)
    requires Tiled(heads, size, owner) && a in heads && a in size && 1 <= n < size[a]
    requires x in heads || x == a + size[a] - n
    ensures var b := a + size[a] - n;
      b !in heads && OwnsBlock(x, size[a := size[a] - n][b := n], Renamed(owner, b, a, b))
  {
    var b := a + size[a] - n;
    assert OwnsBlock(a, size, owner);
    assert b in owner && owner[b] == a;
    assert b !in heads by {
      assert b in heads ==> OwnsBlock(b, size, owner);
    }
    assert x in heads ==> OwnsBlock(x, size, owner);
  }

  lemma SplitUnit(heads: set<int>, size: Headers, owner: Headers, a: int, n: int, b: int, size': Headers,
                  owner': Headers, u: int)
    requires Tiled(heads, size, owner) && a in heads && a in size && 1 <= n < size[a] && b == a + size[a] - n
    requires size' == size[a := size[a] - n][b := n] && owner' == Renamed(owner, b, a, b) && u in owner
    ensures Owned(u, heads + {b}, size', owner')
  {
    assert Owned(u, heads, size, owner);
    SplitBlock(heads, size, owner, a, n, a);
  }

  lemma SplitBlocks(heads: set<int>, size: Headers, owner: Headers, a: int, n: int, b: int, size': Headers,
                    owner': Headers)
    requires Tiled(heads, size, owner) && a in heads && a in size && 1 <= n < size[a] && b == a + size[a] - n
    requires size' == size[a := size[a] - n][b := n] && owner' == Renamed(owner, b, a, b)
    ensures forall x :: x in heads + {b} ==> OwnsBlock(x, size', owner')
  {
    forall x | x in heads + {b} ensures OwnsBlock(x, size', owner') {
      SplitBlock(heads, size, owner, a, n, x);
    }
  }

  lemma TiledSplit(heads: set<int>, size: Headers, owner: Headers, a: int, n: int, b: int, size': Headers,
                   owner': Headers)
    requires Tiled(heads, size, owner) && a in heads && a in size && 1 <= n < size[a] && b == a + size[a] - n
    requires size' == size[a := size[a] - n][b := n] && owner' == Renamed(owner, b, a, b)
    ensures b !in heads && Tiled(heads + {b}, size', owner')
  {
    SplitBlock(heads, size, owner, a, n, a);
    SplitBlocks(heads, size, owner, a, n, b, size', owner');
    forall u | u in owner' ensures Owned(u, heads + {b}, size', owner') {
      SplitUnit(heads, size, owner, a, n, b, size', owner', u);
    }
  }

  ghost function Region(a: int, n: nat): (r: set<int>)
    ensures forall u :: u in r <==> a <= u < a + n
  {
    if n == 0 then {} else Region(a, n - 1) + {a + n - 1}
  }

  ghost function Claimed(owner: Headers, units: set<int>, a: int): Headers {
    map u | u in owner.Keys + units :: if u in units then a else owner[u]
  }

  lemma TiledExtend(heads: set<int>, size: Headers, owner: Headers, a: int, n: nat)
    requires Tiled(heads, size, owner) && n >= 1 && Region(a, n) !! owner.Keys
    ensures a !in heads && Tiled(heads + {a}, size[a := n], Claimed(owner, Region(a, n), a))
  {
    var units := Region(a, n);
    assert a in units;
    assert a !in heads by {
      assert a in heads ==> OwnsBlock(a, size, owner) && a in owner;
    }
    var heads', size', owner' := heads + {a}, size[a := n], Claimed(owner, units, a);
    forall x | x in heads' ensures OwnsBlock(x, size', owner') {
      assert x != a ==> OwnsBlock(x, size, owner);
    }
    forall u | u in owner' ensures Owned(u, heads', size', owner') {
      assert u !in units ==> Owned(u, heads, size, owner);
    }
  }

  // ----- The whole heap

  /** Everything but the gaps between free blocks. */
  ghost predicate HeapChain(base: int, ring: seq<int>, ptr: Headers, size: Headers, live: set<int>, owner: Headers) {
    Chain(base, ring, ptr, size) && live !! FreeHeads(ring)
    && Tiled(live + FreeHeads(ring), size, owner) && forall u :: u in owner ==> base < u
  }

  ghost predicate GapsBut(ring: seq<int>, size: Headers, x: int, y: int) {
    forall i :: 0 <= i < |ring| && i != x && i != y ==> Gap(ring, size, 1, i)
  }

  ghost predicate HeapOk(base: int, ring: seq<int>, ptr: Headers, size: Headers, live: set<int>, owner: Headers) {
    HeapChain(base, ring, ptr, size, live, owner) && GapsBut(ring, size, -1, -1)
  }

  lemma InsertHeads(ring: seq<int>, bp: int, k: nat)
    requires k < |ring|
    ensures FreeHeads(Inserted(ring, bp, k)) == FreeHeads(ring) + {bp}
  {
    var ring' := Inserted(ring, bp, k);
    assert ring'[k + 1] == bp;
    forall i | 1 <= i < |ring| ensures ring[i] in FreeHeads(ring') {
      assert ring'[if i <= k then i else i + 1] == ring[i];
    }
  }

  lemma DeleteHeads(ring: seq<int>, k: nat)
    requires Increasing(ring) && 1 <= k < |ring|
    ensures FreeHeads(Deleted(ring, k)) == FreeHeads(ring) - {ring[k]}
  {
    var ring' := Deleted(ring, k);
    forall i | 1 <= i < |ring| && i != k ensures ring[i] in FreeHeads(ring') {
      assert ring'[if i < k then i else i - 1] == ring[i];
    }
  }

  /** A live block put on the list at its slot; only the gaps around it may be closed. */
  lemma LinkIn(base: int, ring: seq<int>, ptr: Headers, size: Headers, live: set<int>, owner: Headers, bp: int, k: nat)
    requires HeapOk(base, ring, ptr, size, live, owner) && bp in live && Slot(ring, bp, k)
    ensures ring[k] in ptr && bp in size && size[bp] >= 1
    ensures var ring' := Inserted(ring, bp, k);
      HeapChain(base, ring', ptr[bp := ptr[ring[k]]][ring[k] := bp], size, live - {bp}, owner)
      && GapsBut(ring', size, k, k + 1)
  {
    var heads, ring' := live + FreeHeads(ring), Inserted(ring, bp, k);
    if k > 0 {
      assert ring[k] in FreeHeads(ring);
      TiledApart(heads, size, owner, ring[k], bp);
    }
    if k + 1 < |ring| {
      assert ring[k + 1] in FreeHeads(ring);
      TiledApart(heads, size, owner, bp, ring[k + 1]);
    }
    ChainInsert(base, ring, ptr, size, bp, k);
    InsertHeads(ring, bp, k);
    assert live - {bp} + FreeHeads(ring') == heads;
    forall i | 0 <= i < |ring'| && i != k && i != k + 1 ensures Gap(ring', size, 1, i) {
      assert Gap(ring, size, 1, if i < k then i else i - 1);
    }
  }

  /** Two touching free blocks joined into one; `other` is an earlier closed gap, if any. */
  lemma Join(base: int, ring: seq<int>, ptr: Headers, size: Headers, live: set<int>, owner: Headers, k: nat, other: int)
    returns (ring': seq<int>, ptr': Headers, size': Headers, owner': Headers)
    requires HeapChain(base, ring, ptr, size, live, owner) && 1 <= k && k + 1 < |ring|
    requires ring[k] in size && ring[k] + size[ring[k]] == ring[k + 1]
    requires GapsBut(ring, size, k, other) && other < k
    ensures var a, b := ring[k], ring[k + 1];
      b in ptr && b in size && ptr' == ptr[a := ptr[b]] && size' == size[a := size[a] + size[b]]
      && owner' == Renamed(owner, b, b, a)
    ensures ring' == Deleted(ring, k + 1) && FreeHeads(ring') == FreeHeads(ring) - {ring[k + 1]}
    ensures HeapChain(base, ring', ptr', size', live, owner') && GapsBut(ring', size', -1, other)
  {
    var a, b := ring[k], ring[k + 1];
    ChainMerge(base, ring, ptr, size, k);
    assert a in FreeHeads(ring) && b in FreeHeads(ring);
    TiledMerge(live + FreeHeads(ring), size, owner, a, b);
    DeleteHeads(ring, k + 1);
    assert live + FreeHeads(Deleted(ring, k + 1)) == live + FreeHeads(ring) - {b};
    JoinGaps(ring, size, k, other);
    ring', owner' := Deleted(ring, k + 1), Renamed(owner, b, b, a);
    ptr', size' := ptr[a := ptr[b]], size[a := size[a] + size[b]];
  }

  lemma JoinGaps(ring: seq<int>, size: Headers, k: nat, other: int)
    requires Increasing(ring) && 1 <= k && k + 1 < |ring| && ring[k] in size && ring[k + 1] in size
    requires ring[k] + size[ring[k]] == ring[k + 1] && GapsBut(ring, size, k, other) && other < k
    ensures GapsBut(Deleted(ring, k + 1), size[ring[k] := size[ring[k]] + size[ring[k + 1]]], -1, other)
  {
    var ring', size' := Deleted(ring, k + 1), size[ring[k] := size[ring[k]] + size[ring[k + 1]]];
    assert Gap(ring, size, 1, k + 1);
    forall i | 0 <= i < |ring'| && i != k && i != other ensures Gap(ring', size', 1, i) {
      assert Gap(ring, size, 1, if i < k then i else i + 1);
      assert ring'[i] != ring[k];
    }
  }

  /** A live block is not on the list. */
  lemma SlotGap(base: int, ring: seq<int>, ptr: Headers, size: Headers, live: set<int>, owner: Headers, bp: int)
    requires HeapOk(base, ring, ptr, size, live, owner) && bp in live
    ensures base < bp && bp !in ring
  {
    assert bp in owner;
    forall i | 0 <= i < |ring| ensures ring[i] != bp {
      if i > 0 {
        assert ring[i] in FreeHeads(ring);
      }
    }
  }

  /** The headers that kr_free leaves behind once it has found p. */
  function Freed(ptr: Headers, size: Headers, bp: int, p: int): (Headers, Headers)
    requires p in ptr && p in size && bp in size && ptr[p] in size && ptr[p] in ptr
  {
    var q := ptr[p];
    var (ptr1, size1) := if bp + size[bp] == q then (ptr[bp := ptr[q]], size[bp := size[bp] + size[q]])
                         else (ptr[bp := q], size);
    if p + size1[p] == bp then (ptr1[p := ptr1[bp]], size1[p := size1[p] + size1[bp]])
    else (ptr1[p := bp], size1)
  }

  /** Block bp, or the free block that it was joined to, is free and at least as large. */
  ghost predicate FreeAround(ring: seq<int>, size: Headers, owner: Headers, bp: int, n: int) {
    bp in owner && owner[bp] in FreeHeads(ring) && owner[bp] in size && size[owner[bp]] >= n
  }

  lemma SlotHeaders(base: int, ring: seq<int>, ptr: Headers, size: Headers, live: set<int>, owner: Headers, bp: int,
                    k: nat)
    requires HeapOk(base, ring, ptr, size, live, owner) && bp in live && Slot(ring, bp, k)
    ensures var p := ring[k];
      p in ptr && p in size && bp in size && ptr[p] in size && ptr[p] in ptr && ptr[p] == ring[Next(ring, k)]
  {
    assert LinkAt(ring, ptr, k) && LinkAt(ring, ptr, Next(ring, k));
    assert Gap(ring, size, 1, k) && Gap(ring, size, 1, Next(ring, k));
  }

  /** The block at bp, linked in behind p, and joined to the block that p pointed to if it ends there. */
  ghost predicate JoinedUpper(ptr: Headers, size: Headers, bp: int, p: int, ptr': Headers, size': Headers)
    requires p in ptr && bp in size
  {
    var q := ptr[p];
    if bp + size[bp] == q then
      q in ptr && q in size && ptr' == ptr[p := bp][bp := ptr[q]] && size' == size[bp := size[bp] + size[q]]
    else ptr' == ptr[bp := q][p := bp] && size' == size
  }

  /** The block at bp, linked in behind p, joined to p if that ends there. */
  function JoinedLower(ptr: Headers, size: Headers, bp: int, p: int): (Headers, Headers)
    requires p in size && bp in ptr && bp in size
  {
    if p + size[p] == bp then (ptr[p := ptr[bp]], size[p := size[p] + size[bp]]) else (ptr, size)
  }

  /** The two halves, as the map updates of the code. */
  lemma FreedIs(ptr: Headers, size: Headers, bp: int, p: int, ptr1: Headers, size1: Headers)
    requires p != bp && p in ptr && p in size && bp in size && ptr[p] in size && ptr[p] in ptr
    requires JoinedUpper(ptr, size, bp, p, ptr1, size1)
    ensures Freed(ptr, size, bp, p) == JoinedLower(ptr1, size1, bp, p)
  {
    var q := ptr[p];
    var base1 := if bp + size[bp] == q then ptr[bp := ptr[q]] else ptr[bp := q];
    assert ptr1 == base1[p := bp];
    assert ptr1[p := ptr1[bp]] == base1[p := base1[bp]];
  }

  /** Where a free block that reaches x ends: there, or with the free block that begins there. */
  ghost function EndOf(ring: seq<int>, size: Headers, x: int): int {
    if x in FreeHeads(ring) && x in size then x + size[x] else x
  }

  /** Every free block but a was free before, with the same size. */
  ghost predicate OthersStay(ring: seq<int>, size: Headers, ring': seq<int>, size': Headers, a: int) {
    forall b :: b in FreeHeads(ring') && b != a ==>
      b in FreeHeads(ring) && b in size && b in size' && size'[b] == size[b]
  }

  /** Free block i ends at `end`, or was there before with the same size. */
  ghost predicate EndsOrStays(ring: seq<int>, size: Headers, end: int, ring': seq<int>, size': Headers, i: nat)
    requires i < |ring'|
  {
    var b := ring'[i];
    b in size' && (b + size'[b] == end || (b in FreeHeads(ring) && b in size && size'[b] == size[b]))
  }

  ghost predicate GrewTo(ring: seq<int>, size: Headers, end: int, ring': seq<int>, size': Headers) {
    forall i {:trigger EndsOrStays(ring, size, end, ring', size', i)} :: 1 <= i < |ring'| ==>
      EndsOrStays(ring, size, end, ring', size', i)
  }

  lemma OneGrew(ring: seq<int>, size: Headers, end: int, ring': seq<int>, size': Headers, a: int)
    requires a in size' && a + size'[a] == end && OthersStay(ring, size, ring', size', a)
    ensures GrewTo(ring, size, end, ring', size')
  {
    forall i: nat | 1 <= i < |ring'| ensures EndsOrStays(ring, size, end, ring', size', i) {
      assert ring'[i] in FreeHeads(ring');
    }
  }

  /** Block bp is free, in the block at position k of the ring or alone behind it. */
  ghost predicate FreedBehind(ring: seq<int>, owner: Headers, bp: int, k: nat) {
    k < |ring| && bp in owner && (owner[bp] == ring[k] || (k + 1 < |ring| && owner[bp] == ring[k + 1] == bp))
  }

  /** What the second half of kr_free leaves alone had been left alone by the first. */
  /** The free blocks but a were free before, and none is bp. */
  ghost predicate HeadsBut(ring: seq<int>, ring': seq<int>, a: int, bp: int) {
    forall b :: b in FreeHeads(ring') && b != a ==> b in FreeHeads(ring) && b != bp
  }

  lemma GrewTwice(ring: seq<int>, size: Headers, ring1: seq<int>, ptr1: Headers, size1: Headers, ring': seq<int>,
                  ptr': Headers, size': Headers, bp: int, p: int, end: int)
    requires OthersStay(ring, size, ring1, size1, bp) && bp in size1 && bp in ptr1 && p in size1
    requires (ptr', size') == JoinedLower(ptr1, size1, bp, p) && bp + size1[bp] == end
    requires HeadsBut(ring1, ring', if p + size1[p] == bp then p else bp, bp)
    ensures GrewTo(ring, size, end, ring', size')
  {
    OneGrew(ring, size, end, ring', size', if p + size1[p] == bp then p else bp);
  }

  /** No free block touches block bp. */
  ghost predicate Alone(ring: seq<int>, size: Headers, bp: int)
    requires bp in size
  {
    bp + size[bp] !in FreeHeads(ring) && forall a :: a in FreeHeads(ring) && a in size ==> a + size[a] != bp
  }

  lemma AloneAt(base: int, ring: seq<int>, ptr: Headers, size: Headers, live: set<int>, owner: Headers, bp: int, k: nat)
    requires HeapOk(base, ring, ptr, size, live, owner) && bp in live && Slot(ring, bp, k)
    ensures bp in size && ring[k] in ptr && ring[k] in size
    ensures Alone(ring, size, bp) ==> bp + size[bp] != ptr[ring[k]] && ring[k] + size[ring[k]] != bp
  {
    SlotHeaders(base, ring, ptr, size, live, owner, bp, k);
    SlotGap(base, ring, ptr, size, live, owner, bp);
    assert OwnsBlock(bp, size, owner);
    assert LinkAt(ring, ptr, k) && Gap(ring, size, 0, k);
    if k > 0 {
      assert ring[k] in FreeHeads(ring);
    }
    if k + 1 < |ring| {
      assert ring[k + 1] in FreeHeads(ring);
    }
  }

  /** Freeing such a block changes no size. */
  lemma AloneStays(base: int, ring: seq<int>, ptr: Headers, size: Headers, live: set<int>, owner: Headers, bp: int,
                   k: nat)
    requires HeapOk(base, ring, ptr, size, live, owner) && bp in live && Slot(ring, bp, k) && bp in size
    requires Alone(ring, size, bp)
    ensures ring[k] in ptr && ring[k] in size && ptr[ring[k]] in size && ptr[ring[k]] in ptr
    ensures Freed(ptr, size, bp, ring[k]).1 == size && ring[k] + size[ring[k]] != bp
  {
    SlotHeaders(base, ring, ptr, size, live, owner, bp, k);
    AloneAt(base, ring, ptr, size, live, owner, bp, k);
  }

  lemma EndAbove(base: int, ring: seq<int>, ptr: Headers, size: Headers, live: set<int>, owner: Headers, bp: int,
                 k: nat)
    requires HeapOk(base, ring, ptr, size, live, owner) && bp in live && Slot(ring, bp, k) && bp in size
    requires bp + size[bp] in FreeHeads(ring)
    ensures k + 1 < |ring| && bp + size[bp] == ring[k + 1]
  {
    var heads, end := live + FreeHeads(ring), bp + size[bp];
    var i :| 1 <= i < |ring| && ring[i] == end;
    assert OwnsBlock(bp, size, owner);
    if k + 1 < |ring| {
      assert ring[k + 1] in FreeHeads(ring);
      TiledApart(heads, size, owner, bp, ring[k + 1]);
    }
  }

  lemma HeadsSized(base: int, ring: seq<int>, ptr: Headers, size: Headers, live: set<int>, owner: Headers)
    requires HeapOk(base, ring, ptr, size, live, owner)
    ensures forall b :: b in FreeHeads(ring) ==> b in size
  {
    forall b | b in FreeHeads(ring) ensures b in size {
      assert OwnsBlock(b, size, owner);
    }
  }

  ghost predicate SameSizes(live: set<int>, size: Headers, size': Headers) {
    forall a :: a in live ==> a in size && a in size' && size'[a] == size[a]
  }

  lemma UpperOthers(base: int, ring: seq<int>, ptr: Headers, size: Headers, live: set<int>, owner: Headers, bp: int,
                    k: nat, ring': seq<int>, ptr': Headers, size': Headers)
    requires HeapOk(base, ring, ptr, size, live, owner) && bp in live && Slot(ring, bp, k)
    requires bp in size && ring[k] in ptr && JoinedUpper(ptr, size, bp, ring[k], ptr', size')
    requires FreeHeads(ring') == FreeHeads(ring) + {bp} - (if bp + size[bp] == ptr[ring[k]] then {ptr[ring[k]]} else {})
    ensures OthersStay(ring, size, ring', size', bp) && bp + size'[bp] == EndOf(ring, size, bp + size[bp])
  {
    HeadsSized(base, ring, ptr, size, live, owner);
    SlotHeaders(base, ring, ptr, size, live, owner, bp, k);
    if bp + size[bp] in FreeHeads(ring) {
      EndAbove(base, ring, ptr, size, live, owner, bp, k);
    }
    if bp + size[bp] == ptr[ring[k]] {
      UpperIsFree(base, ring, ptr, size, live, owner, bp, k);
    }
  }

  lemma LinksTwice(ptr: Headers, p: int, bp: int, q: int)
    requires q in ptr && q != p && q != bp && p != bp
    ensures ptr[bp := q][p := bp][bp := ptr[bp := q][p := bp][q]] == ptr[p := bp][bp := ptr[q]]
  {
  }

  lemma GapsButLower(ring: seq<int>, size: Headers, k: nat)
    requires GapsBut(ring, size, k, k + 1) && k + 1 < |ring| && Gap(ring, size, 1, k + 1)
    ensures GapsBut(ring, size, -1, k)
  {
  }

  lemma LinkApart(base: int, ring: seq<int>, ptr: Headers, size: Headers, live: set<int>, owner: Headers, bp: int,
                   k: nat)
    returns (ring': seq<int>, ptr': Headers, size': Headers, owner': Headers)
    requires HeapOk(base, ring, ptr, size, live, owner) && bp in live && Slot(ring, bp, k)
    requires var p := ring[k]; p in ptr && p in size && bp in size && ptr[p] in size && ptr[p] in ptr
    requires bp + size[bp] != ptr[ring[k]]
    ensures HeapChain(base, ring', ptr', size', live - {bp}, owner') && GapsBut(ring', size', -1, k)
    ensures k + 1 < |ring'| && ring'[k] == ring[k] && ring'[k + 1] == bp
    ensures owner'.Keys == owner.Keys && bp in owner' && owner'[bp] == bp
    ensures JoinedUpper(ptr, size, bp, ring[k], ptr', size')
    ensures FreeHeads(ring') == FreeHeads(ring) + {bp}
  {
    SlotHeaders(base, ring, ptr, size, live, owner, bp, k);
    LinkIn(base, ring, ptr, size, live, owner, bp, k);
    ptr', size' := ptr[bp := ptr[ring[k]]][ring[k] := bp], size;
    ring', owner' := Inserted(ring, bp, k), owner;
    InsertHeads(ring, bp, k);
    assert bp in owner && owner[bp] == bp;
    assert Gap(ring', size', 0, k + 1);
    GapsButLower(ring', size', k);
  }

  lemma LinkJoined(base: int, ring: seq<int>, ptr: Headers, size: Headers, live: set<int>, owner: Headers, bp: int,
                    k: nat)
    returns (ring': seq<int>, ptr': Headers, size': Headers, owner': Headers)
    requires HeapOk(base, ring, ptr, size, live, owner) && bp in live && Slot(ring, bp, k)
    requires var p := ring[k]; p in ptr && p in size && bp in size && ptr[p] in size && ptr[p] in ptr
    requires bp + size[bp] == ptr[ring[k]]
    ensures HeapChain(base, ring', ptr', size', live - {bp}, owner') && GapsBut(ring', size', -1, k)
    ensures k + 1 < |ring'| && ring'[k] == ring[k] && ring'[k + 1] == bp
    ensures owner'.Keys == owner.Keys && bp in owner' && owner'[bp] == bp
    ensures JoinedUpper(ptr, size, bp, ring[k], ptr', size')
    ensures FreeHeads(ring') == FreeHeads(ring) + {bp} - {ptr[ring[k]]}
  {
    var q := ptr[ring[k]];
    LinkIn(base, ring, ptr, size, live, owner, bp, k);
    InsertHeads(ring, bp, k);
    UpperIsFree(base, ring, ptr, size, live, owner, bp, k);
    assert bp in owner && owner[bp] == bp;
    ring', ptr', size', owner' := JoinUpper(base, Inserted(ring, bp, k), ptr[bp := q][ring[k] := bp], size, live - {bp},
                                            owner, k, bp, q);
    LinksTwice(ptr, ring[k], bp, q);
  }

  /** The first half of kr_free: bp is linked in and joined to the block above it. */
  lemma FreeUpper(base: int, ring: seq<int>, ptr: Headers, size: Headers, live: set<int>, owner: Headers, bp: int,
                  k: nat)
    returns (ring': seq<int>, ptr': Headers, size': Headers, owner': Headers)
    requires HeapOk(base, ring, ptr, size, live, owner) && bp in live && Slot(ring, bp, k)
    ensures var p := ring[k]; p in ptr && p in size && bp in size && ptr[p] in size && ptr[p] in ptr
    ensures HeapChain(base, ring', ptr', size', live - {bp}, owner') && GapsBut(ring', size', -1, k)
    ensures k + 1 < |ring'| && ring'[k] == ring[k] && ring'[k + 1] == bp && size'[bp] >= size[bp]
    ensures owner'.Keys == owner.Keys && bp in owner' && owner'[bp] == bp
    ensures bp in ptr' && ring[k] in size' && size'[ring[k]] == size[ring[k]]
    ensures Freed(ptr, size, bp, ring[k]) == JoinedLower(ptr', size', bp, ring[k])
    ensures SameSizes(live - {bp}, size, size')
    ensures OthersStay(ring, size, ring', size', bp) && bp + size'[bp] == EndOf(ring, size, bp + size[bp])
  {
    var p := ring[k];
    SlotHeaders(base, ring, ptr, size, live, owner, bp, k);
    if bp + size[bp] == ptr[p] {
      ring', ptr', size', owner' := LinkJoined(base, ring, ptr, size, live, owner, bp, k);
      UpperIsFree(base, ring, ptr, size, live, owner, bp, k);
      assert Gap(ring, size, 1, k + 1);
    } else {
      ring', ptr', size', owner' := LinkApart(base, ring, ptr, size, live, owner, bp, k);
    }
    UpperOthers(base, ring, ptr, size, live, owner, bp, k, ring', ptr', size');
    FreedIs(ptr, size, bp, p, ptr', size');
  }

  lemma UpperIsFree(base: int, ring: seq<int>, ptr: Headers, size: Headers, live: set<int>, owner: Headers, bp: int,
                    k: nat)
    requires HeapOk(base, ring, ptr, size, live, owner) && bp in live && Slot(ring, bp, k) && bp in size
    requires ring[k] in ptr && bp + size[bp] == ptr[ring[k]]
    ensures k + 1 < |ring| && ptr[ring[k]] == ring[k + 1] && ring[k + 1] in FreeHeads(ring)
    ensures ring[k + 1] !in live && ring[k + 1] != bp && ring[k + 1] != ring[k]
  {
    SlotGap(base, ring, ptr, size, live, owner, bp);
    assert LinkAt(ring, ptr, k);
    assert size[bp] >= 1;
  }

  lemma JoinUpper(base: int, ring: seq<int>, ptr: Headers, size: Headers, live: set<int>, owner: Headers, k: nat,
                  bp: int, q: int)
    returns (ring': seq<int>, ptr': Headers, size': Headers, owner': Headers)
    requires HeapChain(base, ring, ptr, size, live, owner) && GapsBut(ring, size, k, k + 1)
    requires k + 2 < |ring| && ring[k + 1] == bp && ring[k + 2] == q && bp in size && bp + size[bp] == q
    requires bp in owner && owner[bp] == bp && q != bp
    ensures q in ptr && q in size && ptr' == ptr[bp := ptr[q]] && size' == size[bp := size[bp] + size[q]]
    ensures HeapChain(base, ring', ptr', size', live, owner') && GapsBut(ring', size', -1, k)
    ensures k + 1 < |ring'| && ring'[k] == ring[k] && ring'[k + 1] == bp && size'[bp] >= size[bp]
    ensures owner'.Keys == owner.Keys && bp in owner' && owner'[bp] == bp
    ensures FreeHeads(ring') == FreeHeads(ring) - {q}
  {
    assert ring[k + 2] in size && size[ring[k + 2]] >= 1;
    ring', ptr', size', owner' := Join(base, ring, ptr, size, live, owner, k + 1, k);
    assert owner'[bp] == bp;
  }

  lemma NotLive(base: int, ring: seq<int>, ptr: Headers, size: Headers, live: set<int>, owner: Headers, k: nat)
    requires HeapChain(base, ring, ptr, size, live, owner) && k < |ring|
    ensures ring[k] !in live
  {
    if k == 0 {
      assert base in live ==> base in owner;
    } else {
      assert ring[k] in FreeHeads(ring);
    }
  }

  /** The second half: bp is joined to the block below it. */
  lemma FreeLower(base: int, ring: seq<int>, ptr: Headers, size: Headers, live: set<int>, owner: Headers, bp: int,
                  k: nat)
    returns (ring': seq<int>, ptr': Headers, size': Headers, owner': Headers)
    requires HeapChain(base, ring, ptr, size, live, owner) && GapsBut(ring, size, -1, k)
    requires k + 1 < |ring| && ring[k + 1] == bp && bp in owner && owner[bp] == bp
    requires bp in ptr && bp in size && ring[k] in size
    ensures (ptr', size') == JoinedLower(ptr, size, bp, ring[k])
    ensures HeapOk(base, ring', ptr', size', live, owner') && ring[k] in ring'
    ensures owner'.Keys == owner.Keys && FreeAround(ring', size', owner', bp, size[bp])
    ensures SameSizes(live, size, size')
    ensures FreedBehind(ring', owner', bp, k) && ring'[k] == ring[k]
    ensures ring[k] + size[ring[k]] != bp ==> k + 1 < |ring'| && ring'[k + 1] == bp
    ensures HeadsBut(ring, ring', if ring[k] + size[ring[k]] == bp then ring[k] else bp, bp)
  {
    var p := ring[k];
    NotLive(base, ring, ptr, size, live, owner, k);
    assert Gap(ring, size, 0, k);
    assert bp in FreeHeads(ring);
    ring', ptr', size', owner' := ring, ptr, size, owner;
    if p + size[p] == bp {
      ring', ptr', size', owner' := Join(base, ring, ptr, size, live, owner, k, -1);
      assert ring'[k] == p;
    } else {
      assert Gap(ring, size, 1, k);
    }
  }

  /** kr_free keeps the heap in order: the four ways of joining. */
  lemma FreeBlock(base: int, ring: seq<int>, ptr: Headers, size: Headers, live: set<int>, owner: Headers, bp: int,
                  k: nat)
    returns (ring': seq<int>, ptr': Headers, size': Headers, owner': Headers)
    requires HeapOk(base, ring, ptr, size, live, owner) && bp in live && Slot(ring, bp, k)
    ensures var p := ring[k]; p in ptr && p in size && bp in size && ptr[p] in size && ptr[p] in ptr
    ensures (ptr', size') == Freed(ptr, size, bp, ring[k])
    ensures HeapOk(base, ring', ptr', size', live - {bp}, owner') && ring[k] in ring'
    ensures owner'.Keys == owner.Keys && FreeAround(ring', size', owner', bp, size[bp])
    ensures SameSizes(live - {bp}, size, size')
    ensures GrewTo(ring, size, EndOf(ring, size, bp + size[bp]), ring', size')
    ensures FreedBehind(ring', owner', bp, k) && ring'[k] == ring[k]
    ensures ring[k] + size[ring[k]] != bp ==> k + 1 < |ring'| && ring'[k + 1] == bp
  {
    var p := ring[k];
    var ring1, ptr1, size1, owner1 := FreeUpper(base, ring, ptr, size, live, owner, bp, k);
    ring', ptr', size', owner' := FreeLower(base, ring1, ptr1, size1, live - {bp}, owner1, bp, k);
    GrewTwice(ring, size, ring1, ptr1, size1, ring', ptr', size', bp, p, EndOf(ring, size, bp + size[bp]));
  }

  /** The same, and what becomes of a block that no free block touches. */
  lemma FreeOk(base: int, ring: seq<int>, ptr: Headers, size: Headers, live: set<int>, owner: Headers, bp: int, k: nat)
    returns (ring': seq<int>, ptr': Headers, size': Headers, owner': Headers)
    requires HeapOk(base, ring, ptr, size, live, owner) && bp in live && Slot(ring, bp, k)
    ensures var p := ring[k]; p in ptr && p in size && bp in size && ptr[p] in size && ptr[p] in ptr
    ensures (ptr', size') == Freed(ptr, size, bp, ring[k])
    ensures HeapOk(base, ring', ptr', size', live - {bp}, owner') && ring[k] in ring'
    ensures owner'.Keys == owner.Keys && FreeAround(ring', size', owner', bp, size[bp])
    ensures SameSizes(live - {bp}, size, size')
    ensures GrewTo(ring, size, EndOf(ring, size, bp + size[bp]), ring', size')
    ensures FreedBehind(ring', owner', bp, k) && ring'[k] == ring[k] && LastBelow(ring, bp, ring[k])
    ensures Alone(ring, size, bp) ==> k + 1 < |ring'| && ring'[k + 1] == bp && size' == size
  {
    ring', ptr', size', owner' := FreeBlock(base, ring, ptr, size, live, owner, bp, k);
    if Alone(ring, size, bp) {
      AloneStays(base, ring, ptr, size, live, owner, bp, k);
    }
  }

  /** A fresh region made into one live block. */
  lemma Extend(base: int, ring: seq<int>, ptr: Headers, size: Headers, live: set<int>, owner: Headers, up: int, nu: nat)
    requires HeapOk(base, ring, ptr, size, live, owner) && base < up && nu >= 1 && Region(up, nu) !! owner.Keys
    ensures up !in live && HeapOk(base, ring, ptr, size[up := nu], live + {up}, Claimed(owner, Region(up, nu), up))
    ensures SameSizes(live, size, size[up := nu])
  {
    var heads, size' := live + FreeHeads(ring), size[up := nu];
    TiledExtend(heads, size, owner, up, nu);
    assert live + {up} + FreeHeads(ring) == heads + {up};
    assert up !in ring by {
      forall i | 0 <= i < |ring| ensures ring[i] != up {
        if i > 0 {
          assert ring[i] in FreeHeads(ring);
        }
      }
    }
    forall i | 0 <= i < |ring| ensures Gap(ring, size', 1, i) && Gap(ring, size', 0, i) {
      assert Gap(ring, size, 1, i);
    }
  }

  lemma LiveSized(base: int, ring: seq<int>, ptr: Headers, size: Headers, live: set<int>, owner: Headers)
    requires HeapOk(base, ring, ptr, size, live, owner)
    ensures SameSizes(live, size, size)
  {
  }

  /** A free block of exactly the wanted size leaves the list. */
  lemma TakeWhole(base: int, ring: seq<int>, ptr: Headers, size: Headers, live: set<int>, owner: Headers, k: nat)
    requires HeapOk(base, ring, ptr, size, live, owner) && 1 <= k < |ring|
    ensures ring[k] in ptr && ring[k] !in live
    ensures HeapOk(base, Deleted(ring, k), ptr[ring[k - 1] := ptr[ring[k]]], size, live + {ring[k]}, owner)
  {
    ChainRemove(base, ring, ptr, size, k);
    DeleteHeads(ring, k);
    assert ring[k] in FreeHeads(ring);
    assert live + {ring[k]} + FreeHeads(Deleted(ring, k)) == live + FreeHeads(ring);
  }

  /** A larger free block gives up its tail and stays on the list. */
  lemma TakeTail(base: int, ring: seq<int>, ptr: Headers, size: Headers, live: set<int>, owner: Headers, k: nat, n: nat)
    requires HeapOk(base, ring, ptr, size, live, owner) && 1 <= k < |ring|
    requires ring[k] in size && 1 <= n < size[ring[k]]
    ensures var p := ring[k];
      var b := p + size[p] - n;
      b !in live && HeapOk(base, ring, ptr, size[p := size[p] - n][b := n], live + {b}, Renamed(owner, b, p, b))
    ensures var p := ring[k];
      SameSizes(live, size, size[p := size[p] - n][p + size[p] - n := n])
  {
    var p, heads := ring[k], live + FreeHeads(ring);
    var b := p + size[p] - n;
    var size' := size[p := size[p] - n][b := n];
    assert p in FreeHeads(ring);
    TiledSplit(heads, size, owner, p, n, b, size', Renamed(owner, b, p, b));
    assert live + {b} + FreeHeads(ring) == heads + {b};
    assert b in owner;
    assert b !in ring by {
      forall i | 0 <= i < |ring| ensures ring[i] != b {
        if i > 0 {
          assert ring[i] in FreeHeads(ring);
        }
      }
    }
    forall i | 0 <= i < |ring| ensures Gap(ring, size', 1, i) && Gap(ring, size', 0, i) {
      assert Gap(ring, size, 1, i);
    }
  }

  /** The blocks on the list and the blocks handed out are pairwise disjoint, together they
      cover exactly the units obtained from sbrk, and no two free blocks touch. */
  lemma Partition(base: int, ring: seq<int>, ptr: Headers, size: Headers, live: set<int>, owner: Headers)
    requires HeapOk(base, ring, ptr, size, live, owner)
    ensures forall a, b :: a in live + FreeHeads(ring) && b in live + FreeHeads(ring) && a < b ==>
      a in size && a + size[a] <= b
    ensures forall u :: u in owner <==>
      exists a :: a in live + FreeHeads(ring) && a in size && a <= u < a + size[a]
    ensures forall a, b :: a in FreeHeads(ring) && b in FreeHeads(ring) ==> a in size && a + size[a] != b
  {
    var heads := live + FreeHeads(ring);
    forall a, b | a in heads && b in heads && a < b ensures a in size && a + size[a] <= b {
      TiledApart(heads, size, owner, a, b);
    }
    forall u | u in owner ensures exists a :: a in heads && a in size && a <= u < a + size[a] {
      assert Owned(u, heads, size, owner);
    }
    forall a, u | a in heads && a in size && a <= u < a + size[a] ensures u in owner {
      assert OwnsBlock(a, size, owner);
    }
    forall a, b | a in FreeHeads(ring) && b in FreeHeads(ring) ensures a in size && a + size[a] != b {
      var i :| 1 <= i < |ring| && ring[i] == a;
      var j :| 1 <= j < |ring| && ring[j] == b;
      assert Gap(ring, size, 1, i);
      if i < j {
        assert ring[i + 1] <= ring[j];
      } else if j < i {
        assert OwnsBlock(a, size, owner);
      }
    }
  }

  /** One more block, of nunits, is handed out, at address ap. */
  ghost predicate Given(live: set<int>, live': set<int>, size': Headers, nunits: nat, ap: int) {
    ap - 1 !in live && live' == live + {ap - 1} && ap - 1 in size' && size'[ap - 1] == nunits
  }

  // ----- Where the next search starts

  /** f is the last free block, or the static header, below the block handed out at ap, but for what is left of the
      block that it was cut from. */
  ghost predicate StartsBelow(ring: seq<int>, size: Headers, f: int, ap: int) {
    f in ring && f in size && f + size[f] < ap - 1 && forall x :: x in ring && f < x ==> AboveOrRest(size, x, ap)
  }

  ghost predicate AboveOrRest(size: Headers, x: int, ap: int) {
    ap - 1 < x || (x in size && x + size[x] == ap - 1)
  }

  lemma WholeStarts(base: int, ring: seq<int>, ptr: Headers, size: Headers, live: set<int>, owner: Headers, k: nat)
    requires HeapOk(base, ring, ptr, size, live, owner) && 1 <= k < |ring|
    ensures StartsBelow(Deleted(ring, k), size, ring[k - 1], ring[k] + 1)
  {
    var ring' := Deleted(ring, k);
    assert ring'[k - 1] == ring[k - 1] && Gap(ring, size, 1, k - 1);
    forall x | x in ring' && ring[k - 1] < x ensures ring[k] < x {
      var i :| 0 <= i < |ring'| && ring'[i] == x;
      assert x == ring[if i < k then i else i + 1];
    }
  }

  lemma TailStarts(base: int, ring: seq<int>, ptr: Headers, size: Headers, live: set<int>, owner: Headers,
                   k: nat, n: nat)
    requires HeapOk(base, ring, ptr, size, live, owner) && 1 <= k < |ring|
    requires ring[k] in size && 1 <= n < size[ring[k]]
    ensures var p := ring[k]; var b := p + size[p] - n;
      StartsBelow(ring, size[p := size[p] - n][b := n], ring[k - 1], b + 1)
  {
    var p := ring[k];
    var b := p + size[p] - n;
    assert Gap(ring, size, 1, k - 1) && Gap(ring, size, 1, k);
    forall x | x in ring && ring[k - 1] < x ensures x == p || b < x {
      var i :| 0 <= i < |ring| && ring[i] == x;
      assert i > k ==> ring[k + 1] <= x;
    }
  }

  // ----- The allocator

  const NALLOC: nat := 1024

  /** The units for so many bytes and a header, computed in a word of 32 bits. */
  function Units(nbytes: nat, header: nat): (nunits: nat)
    requires header > 0
    ensures nunits >= 1
  {
    AtLeast((nbytes + header - 1) % 0x1_0000_0000, 0, header);
    (nbytes + header - 1) % 0x1_0000_0000 / header + 1
  }

  /** Behind the header they hold the bytes asked for exactly if rounding up does not leave the word, and one unit
      fewer never does. */
  lemma UnitsHold(nbytes: nat, header: nat)
    requires 0 < header < 0x1_0000_0000 && nbytes < 0x1_0000_0000
    ensures (Units(nbytes, header) - 1) * header >= nbytes <==> nbytes + header - 1 < 0x1_0000_0000
    ensures (Units(nbytes, header) - 2) * header < nbytes
  {
    var x := nbytes + header - 1;
    var w := x % 0x1_0000_0000;
    Split(w, header);
    if x < 0x1_0000_0000 {
      assert w == x;
    } else {
      assert w == x - 0x1_0000_0000 && w < nbytes;
    }
  }

  /** What changes when the arena grows. */
  datatype Arena = Arena(ring: seq<int>, size: Headers, live: set<int>, owner: Headers, freep: Option<int>)

  /** freep is at position k of the ring, and the block freed is part of that free block or of the one behind it; a
      block that no free block touched is the one behind, with its size, and all other sizes stay. */
  ghost predicate FreedAt(a: Arena, b: Arena, bp: int, k: nat) {
    FreedBehind(b.ring, b.owner, bp, k) && b.freep == Some(b.ring[k]) && bp in a.size
    && (Alone(a.ring, a.size, bp) ==> k + 1 < |b.ring| && b.ring[k + 1] == bp && b.size == a.size)
  }

  class Allocator {
    var ptr: Headers
    var size: Headers
    var freep: Option<int>
    const base: int
    ghost var ring: seq<int>
    ghost var live: set<int>
    ghost var owner: Headers

    ghost function Now(): Arena
      reads this
    {
      Arena(ring, size, live, owner, freep)
    }

    ghost predicate Valid()
      reads this
    {
      match freep
      case None => ring == [] && live == {} && owner == map[]
      case Some(f) => f in ring && HeapOk(base, ring, ptr, size, live, owner)
    }

    constructor (base: int)
      ensures Valid() && freep.None? && this.base == base
    {
      this.base := base;
      ptr, size, freep := map[], map[], None;
      ring, live, owner := [], {}, map[];
    }

    /** kr_free's search: around the ring from freep to the slot of bp. */
    method FindSlot(bp: int) returns (p: int, ghost k: nat)
      requires Valid() && freep.Some? && bp in live
      ensures Slot(ring, bp, k) && p == ring[k]
    {
      assert size[bp] >= 1 && owner[bp] == bp;
      SlotGap(base, ring, ptr, size, live, owner, bp);
      k := SlotExists(base, ring, ptr, size, bp);
      p := freep.value;
      ghost var i: nat :| i < |ring| && ring[i] == p;
      assert LinkAt(ring, ptr, i);
      SlotStops(base, ring, ptr, bp, k, i);
      while !(bp > p && bp < ptr[p])
        invariant i < |ring| && p == ring[i] && LinkAt(ring, ptr, i)
        invariant p < bp < ptr[p] || (p >= ptr[p] && (bp > p || bp < ptr[p])) <==> i == k
        decreases if i <= k then k - i else k - i + |ring|
      {
        if p >= ptr[p] && (bp > p || bp < ptr[p]) {
          break;
        }
        p := ptr[p];
        i := Next(ring, i);
        assert LinkAt(ring, ptr, i);
        SlotStops(base, ring, ptr, bp, k, i);
      }
    }

    /** The header updates of kr_free. */
    method Rewire(bp: int, p: int)
      requires p in ptr && p in size && bp in size && ptr[p] in size && ptr[p] in ptr
      modifies this`ptr, this`size
      ensures (ptr, size) == Freed(old(ptr), old(size), bp, p)
    {
      var q := ptr[p];
      if bp + size[bp] == q {
        size := size[bp := size[bp] + size[q]];
        ptr := ptr[bp := ptr[q]];
      } else {
        ptr := ptr[bp := q];
      }
      if p + size[p] == bp {
        size := size[p := size[p] + size[bp]];
        ptr := ptr[p := ptr[bp]];
      } else {
        ptr := ptr[p := bp];
      }
    }

    /** kr_free of a block handed out earlier. */
    method Free(ap: int) returns (ghost k: nat)
      requires Valid() && freep.Some? && ap - 1 in live
      modifies this
      ensures Valid() && freep.Some?
      ensures live == old(live) - {ap - 1} && owner.Keys == old(owner.Keys) && SameSizes(live, old(size), size)
      ensures FreeAround(ring, size, owner, ap - 1, old(size)[ap - 1])
      ensures GrewTo(old(ring), old(size), EndOf(old(ring), old(size), ap - 1 + old(size)[ap - 1]), ring, size)
      ensures LastBelow(old(ring), ap - 1, freep.value) && FreedAt(old(Now()), Now(), ap - 1, k)
    {
      k := FreeHeader(ap - 1);
    }

    /** The same, by the block's header. */
    method FreeHeader(bp: int) returns (ghost k: nat)
      requires Valid() && freep.Some? && bp in live
      modifies this
      ensures Valid() && freep.Some?
      ensures live == old(live) - {bp} && owner.Keys == old(owner.Keys) && SameSizes(live, old(size), size)
      ensures FreeAround(ring, size, owner, bp, old(size)[bp])
      ensures GrewTo(old(ring), old(size), EndOf(old(ring), old(size), bp + old(size)[bp]), ring, size)
      ensures LastBelow(old(ring), bp, freep.value) && FreedAt(old(Now()), Now(), bp, k)
    {
      var p;
      p, k := FindSlot(bp);
      ghost var ring', ptr', size', owner' := FreeOk(base, ring, ptr, size, live, owner, bp, k);
      Rewire(bp, p);
      freep := Some(p);
      ring, live, owner := ring', live - {bp}, owner';
    }

    /** morecore writes the header of its new region as if it had been handed out. */
    method Claim(up: int, nu: nat)
      requires Valid() && freep.Some? && base < up && nu >= 1 && Region(up, nu) !! owner.Keys
      modifies this`size, this`live, this`owner
      ensures size == old(size)[up := nu] && up !in FreeHeads(ring)
      ensures Valid() && live == old(live) + {up} && up !in old(live) && up in size && size[up] == nu
      ensures owner.Keys == old(owner.Keys) + Region(up, nu) && SameSizes(old(live), old(size), size)
    {
      Extend(base, ring, ptr, size, live, owner, up, nu);
      size := size[up := nu];
      live, owner := live + {up}, Claimed(owner, Region(up, nu), up);
    }

    /** morecore, given what sbrk answered; the free block that results contains the
        new region. */
    method Morecore(nunits: nat, sbrk: Option<int>) returns (p: Option<int>)
      requires Valid() && freep.Some?
      requires SbrkFresh(nunits, sbrk)
      modifies this
      ensures Valid() && freep.Some? && p.Some? == sbrk.Some?
      ensures p.None? ==> live == old(live) && owner == old(owner) && size == old(size)
      ensures p.None? ==> ring == old(ring) && freep == old(freep)
      ensures p.Some? ==> p == freep && Grown(nunits, sbrk, true, false, old(live), old(size), old(owner))
      ensures p.Some? ==> Extended(nunits, sbrk, old(ring), old(size), ring, size)
    {
      var nu := nunits;
      if nu < NALLOC {
        nu := NALLOC;
      }
      if sbrk.None? {
        return None;
      }
      var up := sbrk.value;
      Supply(up, nu);
      p := freep;
    }

    /** A block of nu units is given to kr_free by the address that was handed out. */
    method Return(up: int, nu: nat)
      requires Valid() && freep.Some? && up in live && up in size && size[up] == nu
      modifies this
      ensures Valid() && freep.Some? && live == old(live) - {up} && owner.Keys == old(owner.Keys)
      ensures SameSizes(live, old(size), size) && Room(ring, size, nu)
      ensures GrewTo(old(ring), old(size), EndOf(old(ring), old(size), up + nu), ring, size)
    {
      ghost var k := Free(up + 1);
    }

    /** The new region is given to kr_free. */
    method Supply(up: int, nu: nat)
      requires Valid() && freep.Some? && base < up && nu >= 1 && Region(up, nu) !! owner.Keys
      modifies this
      ensures Valid() && freep.Some? && live == old(live) && owner.Keys == old(owner.Keys) + Region(up, nu)
      ensures SameSizes(live, old(size), size)
      ensures Room(ring, size, nu)
      ensures GrewTo(old(ring), old(size), EndOf(old(ring), old(size), up + nu), ring, size)
    {
      ghost var ring0, size0 := ring, size;
      Claim(up, nu);
      ghost var size1 := size;
      Return(up, nu);
      ExtendedBy(ring0, size0, size1, up, nu, ring, size);
    }

    /** The free blocks are those of before but for one, which ends where the new region and a free block above it
        end. */
    ghost predicate Extended(nunits: nat, sbrk: Option<int>, ring0: seq<int>, size0: Headers, ring1: seq<int>,
                             size1: Headers) {
      sbrk.Some? && GrewTo(ring0, size0, EndOf(ring0, size0, sbrk.value + Request(nunits)), ring1, size1)
    }

    function Request(nunits: nat): (r: nat)
      ensures r >= 1024 && r >= nunits && (r == 1024 || r == nunits)
    {
      if nunits < NALLOC then NALLOC else nunits
    }

    /** sbrk's promise: a region above the static header, disjoint from all earlier ones. */
    ghost predicate SbrkFresh(nunits: nat, sbrk: Option<int>)
      reads this
    {
      sbrk.Some? ==> base < sbrk.value && Region(sbrk.value, Request(nunits)) !! owner.Keys
    }

    /** Some free block is large enough. */
    ghost predicate HasRoom(nunits: nat)
      reads this
    {
      Room(ring, size, nunits)
    }

    /** The block found by the search leaves the list, or loses its tail. */
    method Take(prevp: int, p: int, nunits: nat, ghost k: nat, ghost end: int) returns (r: int)
      requires Valid() && freep.Some? && 1 <= k < |ring| && ring[k] == p && ring[k - 1] == prevp
      requires nunits >= 1 && p in size && size[p] >= nunits && p + size[p] == end
      modifies this
      ensures Valid() && freep == Some(prevp) && owner.Keys == old(owner.Keys)
      ensures Given(old(live), live, size, nunits, r)
      ensures r == end - nunits + 1 && SameSizes(old(live), old(size), size)
      ensures FreepBelow(Some(r))
    {
      if size[p] == nunits {
        r := Unlink(prevp, p, k);
      } else {
        r := SplitTail(p, nunits, k);
      }
      freep := Some(prevp);
    }

    /** A block that fits exactly leaves the list. */
    method Unlink(prevp: int, p: int, ghost k: nat) returns (r: int)
      requires Valid() && freep.Some? && 1 <= k < |ring| && ring[k] == p && ring[k - 1] == prevp
      modifies this`ptr, this`freep, this`ring, this`live
      ensures freep == Some(prevp) && Valid() && r == p + 1
      ensures p !in old(live) && live == old(live) + {p} && p in size && SameSizes(old(live), size, size)
      ensures FreepBelow(Some(r))
    {
      WholeStarts(base, ring, ptr, size, live, owner, k);
      TakeWhole(base, ring, ptr, size, live, owner, k);
      LiveSized(base, ring, ptr, size, live, owner);
      assert Gap(ring, size, 1, k);
      ptr := ptr[prevp := ptr[p]];
      ring, live := Deleted(ring, k), live + {p};
      assert ring[k - 1] == prevp;
      freep := Some(prevp);
      r := p + 1;
    }

    /** A larger block gives up its tail and stays on the list. */
    method SplitTail(p: int, nunits: nat, ghost k: nat) returns (r: int)
      requires Valid() && freep.Some? && 1 <= k < |ring| && ring[k] == p && 1 <= nunits && p in size && nunits < size[p]
      modifies this`size, this`live, this`owner
      ensures Valid() && owner.Keys == old(owner.Keys) && r == p + old(size)[p] - nunits + 1
      ensures Given(old(live), live, size, nunits, r)
      ensures SameSizes(old(live), old(size), size) && ring == old(ring) && freep == old(freep)
      ensures StartsBelow(ring, size, ring[k - 1], r)
    {
      TailStarts(base, ring, ptr, size, live, owner, k, nunits);
      TakeTail(base, ring, ptr, size, live, owner, k, nunits);
      var b := p + (size[p] - nunits);
      size := size[p := size[p] - nunits][b := nunits];
      live, owner := live + {b}, Renamed(owner, b, p, b);
      r := b + 1;
    }

    /** The first call makes the list of the static header alone. */
    method Init()
      requires Valid()
      modifies this
      ensures Valid() && freep.Some? && live == old(live) && owner == old(owner)
      ensures old(freep).Some? ==> size == old(size) && ring == old(ring) && freep == old(freep)
      ensures old(freep).None? ==> freep == Some(base)
      ensures FreeHeads(ring) == old(FreeHeads(ring)) && SameSizes(live, old(size), size)
    {
      if freep.None? {
        ptr := ptr[base := base];
        size := size[base := 0];
        freep := Some(base);
        ring := [base];
        assert LinkAt(ring, ptr, 0) && Gap(ring, size, 1, 0) && Gap(ring, size, 0, 0);
      } else {
        LiveSized(base, ring, ptr, size, live, owner);
      }
    }

    /** kr_malloc of `nbytes` with headers of `header` bytes; `sbrk` is what sbrk will
        answer if it is asked. */
    method Malloc(nbytes: nat, header: nat, sbrk: Option<int>) returns (r: Option<int>)
      requires Valid() && header > 0 && SbrkFresh(Units(nbytes, header), sbrk)
      modifies this
      ensures Valid() && freep.Some?
      ensures var nunits := Units(nbytes, header);
        Allocated(nunits, sbrk, r, old(HasRoom(nunits)), old(live), old(size), old(owner))
        && (old(HasRoom(nunits)) && old(freep).Some? ==>
              NextFit(old(ring), old(size), nunits, old(freep).value, r))
        && (!old(HasRoom(nunits)) && sbrk.Some? ==> AtEnd(nunits, sbrk.value, old(ring), old(size), r))
      ensures r.Some? ==> StartsBelow(ring, size, freep.value, r.value)
      ensures r.None? ==> freep == (if old(freep).None? then Some(base) else old(freep))
    {
      var nunits := Units(nbytes, header);
      ghost var room := HasRoom(nunits);
      ghost var size0 := size;
      Init();
      assert room == HasRoom(nunits);
      r := Search(nunits, sbrk);
    }

    /** The outcome of an allocation of `nunits`, `room` saying whether a free block was
        large enough to begin with: every earlier block is left alone, the new block has
        the size wanted, and more core is asked for only when there is no room. */
    ghost predicate Allocated(nunits: nat, sbrk: Option<int>, r: Option<int>, room: bool,
                              live0: set<int>, size0: Headers, owner0: Headers)
      reads this
    {
      AllocatedAt(nunits, sbrk, r, room, live0, size0, owner0, live, size, owner)
    }

    ghost predicate AllocatedAt(nunits: nat, sbrk: Option<int>, r: Option<int>, room: bool, live0: set<int>,
                                size0: Headers, owner0: Headers, live1: set<int>, size1: Headers, owner1: Headers) {
      SameSizes(live0, size0, size1) &&
      if r.Some? then Given(live0, live1, size1, nunits, r.value) && PaidBy(nunits, sbrk, room, owner0, owner1)
      else sbrk.None? && !room && live1 == live0 && owner1 == owner0
    }

    lemma TakenIsAllocated(nunits: nat, sbrk: Option<int>, r: Option<int>, room: bool, live0: set<int>,
                           size0: Headers, owner0: Headers, size1: Headers, owner1: Headers, live2: set<int>,
                           size2: Headers, owner2: Headers)
      requires SameSizes(live0, size0, size1) && PaidBy(nunits, sbrk, room, owner0, owner1) && r.Some?
      requires Given(live0, live2, size2, nunits, r.value) && SameSizes(live0, size1, size2)
      requires owner2.Keys == owner1.Keys
      ensures AllocatedAt(nunits, sbrk, r, room, live0, size0, owner0, live2, size2, owner2)
    {
    }

    /** freep points below the block handed out. */
    ghost predicate FreepBelow(r: Option<int>)
      reads this
    {
      freep.Some? && r.Some? && StartsBelow(ring, size, freep.value, r.value)
    }

    /** The arena has grown by a region from sbrk exactly if there was no room. */
    ghost predicate PaidBy(nunits: nat, sbrk: Option<int>, room: bool, owner0: Headers, owner1: Headers) {
      if room then owner1.Keys == owner0.Keys
      else sbrk.Some? && owner1.Keys == owner0.Keys + Region(sbrk.value, Request(nunits))
    }

    /** The block that the search found, which ends at `end`, gives its last units. */
    method TakeFound(prevp: int, p: int, nunits: nat, ghost j: nat, ghost sbrk: Option<int>, ghost room: bool,
                     ghost live0: set<int>, ghost size0: Headers, ghost owner0: Headers, ghost end: int)
      returns (r: Option<int>)
      requires Valid() && freep.Some? && 1 <= j < |ring| && ring[j] == p && ring[j - 1] == prevp
      requires nunits >= 1 && p in size && size[p] >= nunits && p + size[p] == end
      requires live == live0 && SameSizes(live0, size0, size) && PaidBy(nunits, sbrk, room, owner0, owner)
      modifies this
      ensures IsTail(r, end, nunits) && FreepBelow(r)
      ensures Valid() && freep.Some? && Allocated(nunits, sbrk, r, room, live0, size0, owner0)
    {
      ghost var size1, owner1 := size, owner;
      var ap := Take(prevp, p, nunits, j, end);
      r := Some(ap);
      TakenIsAllocated(nunits, sbrk, r, room, live0, size0, owner0, size1, owner1, live, size, owner);
    }

    /** How far the search can still go before it is back where it started. */
    ghost function Ahead(f: nat, j: nat): nat
      reads this`ring
    {
      if j <= f then f - j else if j <= f + |ring| then f + |ring| - j else 0
    }

    /** The search is under way: the blocks passed so far are too small. */
    ghost predicate Searching(nunits: nat, f: nat, i: nat, j: nat, prevp: int, p: int)
      reads this
    {
      Valid() && Around(f, i, j, prevp, p) && Swept(ring, size, nunits, f, j) && p in size
    }

    /** Past block p, which is too small: on to the next one, or to new core when the search is back at freep. */
    method Onward(nunits: nat, sbrk: Option<int>, prevp: int, p: int, ghost f: nat, ghost i: nat, ghost j: nat)
      returns (prevp': int, p': int, none: bool, ghost f': nat, ghost i': nat, ghost grown: bool)
      requires Searching(nunits, f, i, j, prevp, p) && size[p] < nunits
      requires !HasRoom(nunits) ==> SbrkFresh(nunits, sbrk)
      modifies this
      ensures Valid() && freep.Some?
      ensures !grown ==> Now() == old(Now()) && f' == f && i' == j
      ensures none || grown ==> !old(HasRoom(nunits))
      ensures none ==> sbrk.None? && !grown
      ensures grown ==> GrownFrom(nunits, sbrk, old(Now()), Now())
      ensures !none && !grown ==> Ahead(f, Next(ring, j)) < Ahead(f, j)
      ensures !none ==> i' < |ring| && Searching(nunits, f', i', Next(ring, i'), prevp', p')
    {
      f', i', grown, none, prevp' := f, j, false, false, p;
      if p == freep.value {
        SameIndex(ring, f, j);
        NoRoom(ring, size, nunits, f);
        var more := Morecore(nunits, sbrk);
        if more.None? {
          p', none := p, true;
          return;
        }
        f', grown, prevp' := IndexIn(ring, more.value), true, more.value;
        i' := f';
        SweepStart(ring, size, nunits, f');
      } else {
        assert Small(ring, size, nunits, j);
        SweepStep(ring, size, nunits, f, j);
      }
      assert LinkAt(ring, ptr, i') && Gap(ring, size, 1, Next(ring, i'));
      p' := ptr[prevp'];
    }

    /** The search starts behind freep. */
    method Begin(nunits: nat) returns (prevp: int, p: int, ghost f: nat)
      requires Valid() && freep.Some?
      ensures f < |ring| && Searching(nunits, f, f, Next(ring, f), prevp, p)
    {
      prevp := freep.value;
      f := IndexIn(ring, prevp);
      SweepStart(ring, size, nunits, f);
      assert LinkAt(ring, ptr, f) && Gap(ring, size, 1, Next(ring, f));
      p := ptr[prevp];
    }

    /** Nothing has changed since the search began with arena a, or one region was added. */
    ghost predicate Since(nunits: nat, sbrk: Option<int>, grown: bool, a: Arena)
      reads this
    {
      if grown then GrownFrom(nunits, sbrk, a, Now()) else Now() == a && SbrkFresh(nunits, sbrk)
    }

    /** One step of the search. */
    method Pass(nunits: nat, sbrk: Option<int>, prevp: int, p: int, ghost f: nat, ghost i: nat, ghost j: nat,
                ghost grown: bool, ghost arena0: Arena)
      returns (prevp': int, p': int, found: bool, ghost f': nat, ghost i': nat, ghost j': nat, ghost grown': bool)
      requires Searching(nunits, f, i, j, prevp, p) && size[p] < nunits && Since(nunits, sbrk, grown, arena0)
      modifies this
      ensures Valid() && freep.Some? && Since(nunits, sbrk, grown', arena0)
      ensures found ==> Searching(nunits, f', i', j', prevp', p')
      ensures found ==> (grown' && !grown) || (grown' == grown && Ahead(f', j') < old(Ahead(f, j)))
      ensures !found ==> !grown' && sbrk.None? && !HasRoom(nunits)
    {
      var none;
      ghost var more;
      prevp', p', none, f', i', more := Onward(nunits, sbrk, prevp, p, f, i, j);
      found, grown', j' := !none, grown || more, Next(ring, if none then 0 else i');
    }

    /** The search has ended at block p, behind prevp. */
    ghost predicate FoundAt(nunits: nat, f: nat, j: nat, prevp: int, p: int)
      reads this
    {
      freep.Some? && FitAt(ring, size, nunits, freep.value, f, j) && ring[j] == p && ring[j - 1] == prevp
    }

    /** The static header fits nothing, so that the block found is behind another one in the ring. */
    lemma IsFit(nunits: nat, f: nat, i: nat, j: nat, prevp: int, p: int)
      requires nunits >= 1 && Searching(nunits, f, i, j, prevp, p) && size[p] >= nunits
      ensures FoundAt(nunits, f, j, prevp, p)
    {
      assert j == i + 1;
    }

    /** The way around the list to a block at position j that is large enough, with at most one call of morecore. */
    method Look(nunits: nat, sbrk: Option<int>)
      returns (prevp: int, p: int, found: bool, ghost f: nat, ghost j: nat, ghost grown: bool)
      requires Valid() && freep.Some? && nunits >= 1 && SbrkFresh(nunits, sbrk)
      modifies this
      ensures Valid() && freep.Some?
      ensures Since(nunits, sbrk, grown, old(Now()))
      ensures found ==> FoundAt(nunits, f, j, prevp, p)
      ensures !found ==> !grown && sbrk.None? && !HasRoom(nunits)
    {
      ghost var arena0 := Now();
      prevp, p, f := Begin(nunits);
      found, grown := true, false;
      ghost var i: nat := f;
      j := Next(ring, f);
      while size[p] < nunits
        invariant Searching(nunits, f, i, j, prevp, p)
        invariant Since(nunits, sbrk, grown, arena0)
        decreases !grown, Ahead(f, j)
      {
        prevp, p, found, f, i, j, grown := Pass(nunits, sbrk, prevp, p, f, i, j, grown, arena0);
        if !found {
          return;
        }
      }
      IsFit(nunits, f, i, j, prevp, p);
    }

    /** If the arena has grown, the block found ends where the new region and a free block above it end. */
    method Find(nunits: nat, sbrk: Option<int>)
      returns (prevp: int, p: int, found: bool, ghost f: nat, ghost j: nat, ghost grown: bool, ghost end: int)
      requires Valid() && freep.Some? && nunits >= 1 && SbrkFresh(nunits, sbrk)
      modifies this
      ensures Valid() && freep.Some?
      ensures if grown then GrownFrom(nunits, sbrk, old(Now()), Now()) else Now() == old(Now())
      ensures found ==> FoundAt(nunits, f, j, prevp, p)
      ensures !found ==> !grown && sbrk.None? && !HasRoom(nunits)
      ensures found ==> p + size[p] == end
      ensures found && grown ==> end == EndOf(old(ring), old(size), sbrk.value + Request(nunits))
    {
      ghost var arena0 := Now();
      prevp, p, found, f, j, grown := Look(nunits, sbrk);
      end := if found then p + size[p] else 0;
      if found && grown {
        EndFound(nunits, sbrk, arena0, Now(), j);
      }
    }

    lemma EndFound(nunits: nat, sbrk: Option<int>, a: Arena, b: Arena, j: nat)
      requires GrownFrom(nunits, sbrk, a, b)
      requires 1 <= j < |b.ring| && b.ring[j] in b.size && b.size[b.ring[j]] >= nunits
      ensures b.ring[j] + b.size[b.ring[j]] == EndOf(a.ring, a.size, sbrk.value + Request(nunits))
    {
      OnlyFit(a.ring, a.size, nunits, EndOf(a.ring, a.size, sbrk.value + Request(nunits)), b.ring, b.size, j);
    }

    /** The search around the list, with at most one call of morecore. */
    method Search(nunits: nat, sbrk: Option<int>) returns (r: Option<int>)
      requires Valid() && freep.Some? && nunits >= 1 && SbrkFresh(nunits, sbrk)
      modifies this
      ensures Valid() && freep.Some?
      ensures Allocated(nunits, sbrk, r, old(HasRoom(nunits)), old(live), old(size), old(owner))
      ensures old(HasRoom(nunits)) ==> NextFit(old(ring), old(size), nunits, old(freep).value, r)
      ensures !old(HasRoom(nunits)) && sbrk.Some? ==> AtEnd(nunits, sbrk.value, old(ring), old(size), r)
      ensures if r.Some? then StartsBelow(ring, size, freep.value, r.value) else Now() == old(Now())
    {
      ghost var room, live0, size0, owner0 := HasRoom(nunits), live, size, owner;
      var prevp, p, found;
      ghost var f: nat, j: nat, grown, end;
      prevp, p, found, f, j, grown, end := Find(nunits, sbrk);
      if !found {
        return None;
      }
      ghost var ring1, size1, freep1 := ring, size, freep.value;
      FitIsRoom(nunits, f, j);
      r := TakeFound(prevp, p, nunits, j, sbrk, room, live0, size0, owner0, end);
      if !grown {
        FitGiven(ring1, size1, nunits, freep1, f, j, p, end, r);
      }
    }

    /** The block handed out is the end of the free block that the new region is part of. */
    ghost predicate AtEnd(nunits: nat, up: int, ring0: seq<int>, size0: Headers, r: Option<int>) {
      IsTail(r, EndOf(ring0, size0, up + Request(nunits)), nunits)
    }

    lemma FitIsRoom(nunits: nat, f: nat, j: nat)
      requires freep.Some? && FitAt(ring, size, nunits, freep.value, f, j)
      ensures HasRoom(nunits)
    {
      var a := ring[j];
      assert a in FreeHeads(ring) && a in size && size[a] >= nunits;
    }

    /** The search stands between prevp at position i and p at position j; it started
        at freep, at position f. */
    ghost predicate Around(f: nat, i: nat, j: nat, prevp: int, p: int)
      reads this
    {
      freep.Some? && f < |ring| && ring[f] == freep.value &&
      i < |ring| && j < |ring| && j == Next(ring, i) && prevp == ring[i] && p == ring[j]
    }

    /** The arena b is a with one more region from sbrk, since no free block was large enough. */
    ghost predicate GrownFrom(nunits: nat, sbrk: Option<int>, a: Arena, b: Arena) {
      b.live == a.live && SameSizes(a.live, a.size, b.size) && Room(b.ring, b.size, nunits)
      && !Room(a.ring, a.size, nunits) && Extended(nunits, sbrk, a.ring, a.size, b.ring, b.size)
      && b.owner.Keys == a.owner.Keys + Region(sbrk.value, Request(nunits))
    }

    /** What the search has changed so far: nothing, or one more region from sbrk. */
    ghost predicate Grown(nunits: nat, sbrk: Option<int>, grown: bool, room: bool,
                          live0: set<int>, size0: Headers, owner0: Headers)
      reads this
    {
      live == live0 && SameSizes(live0, size0, size) &&
      if grown then
        HasRoom(nunits) && !room && sbrk.Some?
        && owner.Keys == owner0.Keys + Region(sbrk.value, Request(nunits))
      else owner == owner0 && size == size0 && HasRoom(nunits) == room
    }
  }

  /** Some free block is large enough. */
  ghost predicate Room(ring: seq<int>, size: Headers, nunits: nat) {
    exists a :: a in FreeHeads(ring) && a in size && size[a] >= nunits
  }

  /** If no block was large enough, the one that has grown is the only one that is. */
  lemma OnlyFit(ring: seq<int>, size: Headers, nunits: nat, end: int, ring': seq<int>, size': Headers, j: nat)
    requires !Room(ring, size, nunits)
    requires GrewTo(ring, size, end, ring', size')
    requires 1 <= j < |ring'| && ring'[j] in size' && size'[ring'[j]] >= nunits
    ensures ring'[j] + size'[ring'[j]] == end
  {
    assert EndsOrStays(ring, size, end, ring', size', j);
  }

  /** What kr_free says of the new region, in terms of the sizes before. */
  lemma ExtendedBy(ring: seq<int>, size: Headers, size1: Headers, up: int, nu: nat, ring': seq<int>, size': Headers)
    requires size1 == size[up := nu] && nu >= 1 && up !in FreeHeads(ring)
    requires GrewTo(ring, size1, EndOf(ring, size1, up + nu), ring', size')
    ensures GrewTo(ring, size, EndOf(ring, size, up + nu), ring', size')
  {
    var end := EndOf(ring, size1, up + nu);
    forall i: nat | 1 <= i < |ring'| ensures EndsOrStays(ring, size, end, ring', size', i) {
      assert EndsOrStays(ring, size1, end, ring', size', i);
    }
  }

  ghost function IndexIn(ring: seq<int>, p: int): (i: nat)
    requires p in ring
    ensures i < |ring| && ring[i] == p
  {
    var i :| 0 <= i < |ring| && ring[i] == p;
    i
  }

  /** x lies strictly between f and j on the way around. */
  predicate Passed(f: nat, j: nat, x: nat) {
    if f < j then f < x < j else f < x || x < j
  }

  ghost predicate Small(ring: seq<int>, size: Headers, nunits: nat, x: nat)
    requires x < |ring|
  {
    ring[x] in size && size[ring[x]] < nunits
  }

  /** The block at position j is large enough, and the first such one on the way around from freep, at position f. */
  ghost predicate FitAt(ring: seq<int>, size: Headers, nunits: nat, freep: int, f: nat, j: nat) {
    f < |ring| && ring[f] == freep && 1 <= j < |ring| && ring[j] in size && size[ring[j]] >= nunits
    && Swept(ring, size, nunits, f, j)
  }

  /** The address handed out for the last units of a block that ends at `end`. */
  predicate IsTail(r: Option<int>, end: int, nunits: nat) {
    r.Some? && r.value == end - nunits + 1
  }

  /** The next block that fits gives its last units. */
  ghost predicate NextFit(ring: seq<int>, size: Headers, nunits: nat, freep: int, r: Option<int>) {
    exists f: nat, j: nat :: FitAt(ring, size, nunits, freep, f, j) && IsTail(r, ring[j] + size[ring[j]], nunits)
  }

  lemma FitGiven(ring: seq<int>, size: Headers, nunits: nat, freep: int, f: nat, j: nat, p: int, end: int,
                 r: Option<int>)
    requires FitAt(ring, size, nunits, freep, f, j) && ring[j] == p && p in size && p + size[p] == end
    requires IsTail(r, end, nunits)
    ensures NextFit(ring, size, nunits, freep, r)
  {
    assert IsTail(r, ring[j] + size[ring[j]], nunits);
  }

  /** Every block passed on the way from f to j is too small. */
  ghost predicate Swept(ring: seq<int>, size: Headers, nunits: nat, f: nat, j: nat) {
    forall x :: 0 <= x < |ring| && Passed(f, j, x) ==> Small(ring, size, nunits, x)
  }

  lemma SweepStart(ring: seq<int>, size: Headers, nunits: nat, f: nat)
    requires f < |ring|
    ensures Swept(ring, size, nunits, f, Next(ring, f))
  {
  }

  lemma SweepStep(ring: seq<int>, size: Headers, nunits: nat, f: nat, j: nat)
    requires Swept(ring, size, nunits, f, j) && j < |ring| && f < |ring| && j != f && Small(ring, size, nunits, j)
    ensures Swept(ring, size, nunits, f, Next(ring, j))
  {
  }

  lemma SameIndex(ring: seq<int>, f: nat, j: nat)
    requires Increasing(ring) && f < |ring| && j < |ring| && ring[f] == ring[j]
    ensures f == j
  {
  }

  /** Once the search is back where it started no free block is large enough. */
  lemma NoRoom(ring: seq<int>, size: Headers, nunits: nat, f: nat)
    requires f < |ring| && Small(ring, size, nunits, f) && Swept(ring, size, nunits, f, f)
    ensures !exists a :: a in FreeHeads(ring) && a in size && size[a] >= nunits
  {
    forall a | a in FreeHeads(ring) ensures a in size && size[a] < nunits {
      var x :| 1 <= x < |ring| && ring[x] == a;
      assert x == f || Passed(f, f, x);
      assert Small(ring, size, nunits, x);
    }
  }

  // ----- Across calls

  /** A free block of the wanted size right behind freep is the one that the next request gets. */
  lemma NextIsBehind(ring: seq<int>, size: Headers, nunits: nat, k: nat, ap: int, r: Option<int>)
    requires Increasing(ring) && k + 1 < |ring| && ring[k + 1] == ap - 1 && ap - 1 in size && size[ap - 1] == nunits
    requires NextFit(ring, size, nunits, ring[k], r)
    ensures r == Some(ap)
  {
    var f: nat, j: nat :| FitAt(ring, size, nunits, ring[k], f, j) && IsTail(r, ring[j] + size[ring[j]], nunits);
    SameIndex(ring, f, k);
    assert Passed(f, j, k + 1) <==> j != k + 1;
  }

  lemma BlockBehind(base: int, a: Arena, b: Arena, ptr: Headers, bp: int, k: nat, nunits: nat)
    requires HeapOk(base, b.ring, ptr, b.size, b.live, b.owner)
    requires FreedAt(a, b, bp, k) && Alone(a.ring, a.size, bp) && a.size[bp] == nunits
    ensures Increasing(b.ring) && k + 1 < |b.ring| && b.ring[k + 1] == bp && bp in b.size && b.size[bp] == nunits
    ensures b.freep == Some(b.ring[k]) && Room(b.ring, b.size, nunits)
  {
    assert bp in FreeHeads(b.ring);
  }

  lemma GivenBack(live: set<int>, live': set<int>, size': Headers, nunits: nat, ap: int)
    requires ap - 1 in live && Given(live - {ap - 1}, live', size', nunits, ap)
    ensures live' == live
  {
  }

  /** A block that is freed and joined to nothing is what the next request of its size gets, whatever else is free. */
  method FreeThenMalloc(a: Allocator, ap: int, nbytes: nat, header: nat, sbrk: Option<int>) returns (r: Option<int>)
    requires a.Valid() && a.freep.Some? && ap - 1 in a.live && ap - 1 in a.size && Alone(a.ring, a.size, ap - 1)
    requires header > 0 && Units(nbytes, header) == a.size[ap - 1] && a.SbrkFresh(Units(nbytes, header), sbrk)
    modifies a
    ensures a.Valid() && r == Some(ap) && a.live == old(a.live)
  {
    ghost var nunits, arena0 := Units(nbytes, header), a.Now();
    ghost var k := a.Free(ap);
    ghost var arena1 := a.Now();
    BlockBehind(a.base, arena0, arena1, a.ptr, ap - 1, k, nunits);
    r := a.Malloc(nbytes, header, sbrk);
    NextIsBehind(arena1.ring, arena1.size, nunits, k, ap, r);
    GivenBack(arena0.live, a.live, a.size, nunits, ap);
  }
}
