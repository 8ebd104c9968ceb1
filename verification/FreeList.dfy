/**
 * The free-list allocator with pluggable search and ordering (related_info/ostep/ostep3-malloc.py).
 *
 * For every policy and every list order, the free list and the allocated blocks partition the heap.  Kept in
 * address order and coalesced, the free list has no two blocks that touch, so that an allocation fails only if
 * there is no contiguous free run of the size it needs.
 */
module FreeList {
  import opened Quotients

  datatype Policy = First | Best | Worst
  datatype Order = AddrSort | SizeSortUp | SizeSortDown | InsertFront | InsertBack
  datatype Block = Block(addr: int, size: int) {
    predicate Has(u: int) { addr <= u < addr + size }
  }

  // ----- Partitions of the heap

  ghost predicate InFree(list: seq<Block>, u: int) {
    exists b :: b in list && b.Has(u)
  }

  ghost predicate InLive(live: map<int, int>, u: int) {
    exists a :: a in live && Block(a, live[a]).Has(u)
  }

  predicate Apart(b: Block, c: Block) {
    b.addr + b.size <= c.addr || c.addr + c.size <= b.addr
  }

  ghost predicate Disjoint(list: seq<Block>) {
    (forall b :: b in list ==> b.size > 0)
    && forall i, j :: 0 <= i < j < |list| ==> Apart(list[i], list[j])
  }

  /** Free and allocated blocks are disjoint, and together they are the heap from lo up to hi. */
  ghost predicate Partition(list: seq<Block>, live: map<int, int>, lo: int, hi: int) {
    Disjoint(list)
    && (forall a :: a in live ==> live[a] > 0)
    && (forall a, c :: a in live && c in live && a != c ==> Apart(Block(a, live[a]), Block(c, live[c])))
    && (forall b, a :: b in list && a in live ==> Apart(b, Block(a, live[a])))
    && forall u :: lo <= u < hi <==> InFree(list, u) || InLive(live, u)
  }

  lemma NoCommon(b: Block, c: Block)
    requires b.size > 0 && c.size > 0 && forall u :: b.Has(u) ==> !c.Has(u)
    ensures Apart(b, c)
  {
    var u := if b.addr < c.addr then c.addr else b.addr;
    assert b.Has(u) ==> !c.Has(u);
  }

  /** Only what the list covers matters, not how it is ordered or cut. */
  lemma SameCover(list: seq<Block>, list': seq<Block>, live: map<int, int>, lo: int, hi: int)
    requires Partition(list, live, lo, hi) && Disjoint(list')
    requires forall u :: InFree(list', u) <==> InFree(list, u)
    ensures Partition(list', live, lo, hi)
  {
    forall b, a | b in list' && a in live ensures Apart(b, Block(a, live[a])) {
      forall u | b.Has(u) ensures !Block(a, live[a]).Has(u) {
        assert InFree(list', u);
        var c :| c in list && c.Has(u);
        assert Apart(c, Block(a, live[a]));
      }
      NoCommon(b, Block(a, live[a]));
    }
  }

  // ----- Allocation

  /** The list after need units have been taken from the front of its block k. */
  function Taken(list: seq<Block>, k: nat, need: int): seq<Block>
    requires k < |list|
  {
    if list[k].size > need then list[k := Block(list[k].addr + need, list[k].size - need)]
    else list[..k] + list[k + 1..]
  }

  lemma TakenPartition(list: seq<Block>, live: map<int, int>, lo: int, hi: int, k: nat, need: int)
    requires Partition(list, live, lo, hi) && k < |list| && 0 < need <= list[k].size
    ensures list[k].addr !in live && lo <= list[k].addr
    ensures Partition(Taken(list, k, need), live[list[k].addr := need], lo, hi)
  {
    var b := list[k];
    var list', live' := Taken(list, k, need), live[b.addr := need];
    assert b.Has(b.addr) && InFree(list, b.addr);
    forall a | a in live ensures a != b.addr {
      assert b in list && Apart(b, Block(a, live[a]));
    }
    TakenDisjoint(list, k, need);
    forall u ensures InFree(list', u) <==> InFree(list, u) && !Block(b.addr, need).Has(u) {
      TakenCovers(list, k, need, u);
    }
    forall u ensures InLive(live', u) <==> InLive(live, u) || Block(b.addr, need).Has(u) {
      if InLive(live, u) {
        var a :| a in live && Block(a, live[a]).Has(u);
        assert a in live' && live'[a] == live[a];
      }
      assert b.addr in live' && live'[b.addr] == need;
    }
    forall c, a | c in list' && a in live' ensures Apart(c, Block(a, live'[a])) {
      TakenFrom(list, k, need, c);
      var i :| 0 <= i < |list| && list[i].addr <= c.addr && c.addr + c.size <= list[i].addr + list[i].size;
      assert list[i] in list && (a != b.addr ==> Apart(list[i], Block(a, live[a])));
    }
    forall a | a in live ensures Apart(Block(a, live[a]), Block(b.addr, need)) {
      assert Apart(b, Block(a, live[a]));
    }
    forall u ensures lo <= u < hi <==> InFree(list', u) || InLive(live', u) {
      assert Block(b.addr, need).Has(u) ==> b.Has(u) && InFree(list, u);
    }
  }

  /** What is left of the list is the other blocks and the rest of block k. */
  lemma TakenFrom(list: seq<Block>, k: nat, need: int, c: Block)
    requires Disjoint(list) && k < |list| && 0 < need <= list[k].size && c in Taken(list, k, need)
    ensures c.size > 0 && Apart(c, Block(list[k].addr, need))
    ensures exists i :: 0 <= i < |list| && list[i].addr <= c.addr && c.addr + c.size <= list[i].addr + list[i].size
  {
    var list' := Taken(list, k, need);
    var j :| 0 <= j < |list'| && list'[j] == c;
    var i := if list[k].size > need || j < k then j else j + 1;
    assert list[i] in list && (i < k ==> Apart(list[i], list[k])) && (i > k ==> Apart(list[k], list[i]));
    assert list[i].addr <= c.addr && c.addr + c.size <= list[i].addr + list[i].size;
  }

  lemma TakenDisjoint(list: seq<Block>, k: nat, need: int)
    requires Disjoint(list) && k < |list| && 0 < need <= list[k].size
    ensures Disjoint(Taken(list, k, need))
  {
    var list' := Taken(list, k, need);
    forall c | c in list' ensures c.size > 0 {
      TakenFrom(list, k, need, c);
    }
    forall i, j | 0 <= i < j < |list'| ensures Apart(list'[i], list'[j]) {
      var split := list[k].size > need;
      var i', j' := if split || i < k then i else i + 1, if split || j < k then j else j + 1;
      assert Apart(list[i'], list[j']);
    }
  }

  lemma TakenCovers(list: seq<Block>, k: nat, need: int, u: int)
    requires Disjoint(list) && k < |list| && 0 < need <= list[k].size
    ensures InFree(Taken(list, k, need), u) <==> InFree(list, u) && !Block(list[k].addr, need).Has(u)
  {
    if InFree(Taken(list, k, need), u) {
      var c :| c in Taken(list, k, need) && c.Has(u);
      TakenFrom(list, k, need, c);
      var i :| 0 <= i < |list| && list[i].addr <= c.addr && c.addr + c.size <= list[i].addr + list[i].size;
      assert list[i] in list && list[i].Has(u);
    }
    if InFree(list, u) && !Block(list[k].addr, need).Has(u) {
      StillFree(list, k, need, u);
    }
  }

  lemma StillFree(list: seq<Block>, k: nat, need: int, u: int)
    requires k < |list| && 0 < need <= list[k].size && InFree(list, u) && !Block(list[k].addr, need).Has(u)
    ensures InFree(Taken(list, k, need), u)
  {
    var list' := Taken(list, k, need);
    var c :| c in list && c.Has(u);
    var i :| 0 <= i < |list| && list[i] == c;
    var split := list[k].size > need;
    assert i == k ==> split;
    var j := if split || i < k then i else i - 1;
    assert list'[j].Has(u) && list'[j] in list';
  }

  // ----- Counting how often an address is covered

  function Covers(list: seq<Block>, u: int): nat {
    if list == [] then 0 else Covers(list[1..], u) + (if list[0].Has(u) then 1 else 0)
  }

  lemma {:induction false} CoversJoin(a: seq<Block>, b: seq<Block>, u: int)
    ensures Covers(a + b, u) == Covers(a, u) + Covers(b, u)
  {
    if a == [] {
      assert a + b == b;
    } else {
      CoversJoin(a[1..], b, u);
      assert (a + b)[1..] == a[1..] + b;
    }
  }

  lemma {:induction false} CoversIs(list: seq<Block>, u: int)
    ensures Covers(list, u) >= 1 <==> InFree(list, u)
  {
    if list != [] {
      CoversIs(list[1..], u);
      assert list == [list[0]] + list[1..];
    }
  }

  lemma {:induction false} CoveredTwice(list: seq<Block>, i: nat, j: nat, u: int)
    requires i < j < |list| && list[i].Has(u) && list[j].Has(u)
    ensures Covers(list, u) >= 2
  {
    if i == 0 {
      assert list[1..][j - 1] == list[j];
      CoversIs(list[1..], u);
    } else {
      CoveredTwice(list[1..], i - 1, j - 1, u);
    }
  }

  lemma {:induction false} CoveredOnce(list: seq<Block>, u: int)
    requires Disjoint(list)
    ensures Covers(list, u) <= 1
  {
    if list != [] {
      assert forall i :: 0 <= i < |list| - 1 ==> list[1..][i] == list[i + 1];
      CoveredOnce(list[1..], u);
      CoversIs(list[1..], u);
      forall b | b in list[1..] ensures Apart(list[0], b) {
        var i :| 0 <= i < |list[1..]| && list[1..][i] == b;
        assert list[i + 1] == b;
      }
    }
  }

  lemma DisjointIf(list: seq<Block>)
    requires (forall b :: b in list ==> b.size > 0) && forall u :: Covers(list, u) <= 1
    ensures Disjoint(list)
  {
    forall i, j | 0 <= i < j < |list| ensures Apart(list[i], list[j]) {
      forall u | list[i].Has(u) ensures !list[j].Has(u) {
        if list[j].Has(u) {
          CoveredTwice(list, i, j, u);
        }
      }
      NoCommon(list[i], list[j]);
    }
  }

  /** Lists that cover every address as often are as good as each other. */
  lemma Rearranged(list: seq<Block>, list': seq<Block>, live: map<int, int>, lo: int, hi: int)
    requires Partition(list, live, lo, hi)
    requires (forall b :: b in list' ==> b.size > 0) && forall u :: Covers(list', u) == Covers(list, u)
    ensures Partition(list', live, lo, hi)
  {
    forall u ensures Covers(list', u) <= 1 && (InFree(list', u) <==> InFree(list, u)) {
      CoveredOnce(list, u);
      CoversIs(list, u);
      CoversIs(list', u);
    }
    DisjointIf(list');
    SameCover(list, list', live, lo, hi);
  }

  // ----- Freeing

  lemma GivenBack(list: seq<Block>, live: map<int, int>, lo: int, hi: int, addr: int)
    requires Partition(list, live, lo, hi) && addr in live
    ensures Partition(list + [Block(addr, live[addr])], live - {addr}, lo, hi)
  {
    var b := Block(addr, live[addr]);
    var list', live' := list + [b], live - {addr};
    forall i, j | 0 <= i < j < |list'| ensures Apart(list'[i], list'[j]) {
      assert list'[i] == list[i] && list[i] in list;
    }
    forall u ensures InFree(list', u) || InLive(live', u) <==> InFree(list, u) || InLive(live, u) {
      assert b in list';
      if InFree(list, u) {
        var c :| c in list && c.Has(u);
        assert c in list';
      }
      if InLive(live, u) && !b.Has(u) {
        var a :| a in live && Block(a, live[a]).Has(u);
        assert a in live' && live'[a] == live[a];
      }
    }
  }

  predicate Less(order: Order, b: Block, e: Block) {
    match order
    case AddrSort => b.addr < e.addr
    case SizeSortUp => b.size < e.size
    case SizeSortDown => b.size > e.size
    case _ => false
  }

  function Insert(order: Order, list: seq<Block>, b: Block): seq<Block> {
    if list == [] then [b]
    else if Less(order, b, list[0]) then [b] + list
    else [list[0]] + Insert(order, list[1..], b)
  }

  /** A stable sort. */
  function Sort(order: Order, list: seq<Block>): seq<Block> {
    if list == [] then [] else Insert(order, Sort(order, list[..|list| - 1]), list[|list| - 1])
  }

  /** No entry belongs before an earlier one. */
  predicate Sorted(order: Order, list: seq<Block>) {
    forall i, j :: 0 <= i < j < |list| ==> !Less(order, list[j], list[i])
  }

  predicate Ascending(list: seq<Block>) {
    forall i, j :: 0 <= i < j < |list| ==> list[i].addr <= list[j].addr
  }

  lemma {:induction false} InsertIs(order: Order, list: seq<Block>, b: Block, u: int)
    ensures Covers(Insert(order, list, b), u) == Covers(list, u) + (if b.Has(u) then 1 else 0)
  {
    if list == [] {
    } else if Less(order, b, list[0]) {
      assert ([b] + list)[1..] == list;
    } else {
      var rest := Insert(order, list[1..], b);
      InsertIs(order, list[1..], b, u);
      assert ([list[0]] + rest)[1..] == rest;
      assert list == [list[0]] + list[1..];
    }
  }

  lemma {:induction false} InsertPermutes(order: Order, list: seq<Block>, b: Block)
    ensures multiset(Insert(order, list, b)) == multiset(list) + multiset{b}
  {
    if list != [] && !Less(order, b, list[0]) {
      InsertPermutes(order, list[1..], b);
      assert list == [list[0]] + list[1..];
    }
  }

  lemma SameMembers(list: seq<Block>, list': seq<Block>, c: Block)
    requires multiset(list) == multiset(list')
    ensures c in list <==> c in list'
  {
    assert c in list <==> c in multiset(list);
    assert c in list' <==> c in multiset(list');
  }

  lemma SortedWith(order: Order, b: Block, rest: seq<Block>)
    requires Sorted(order, rest) && forall j :: 0 <= j < |rest| ==> !Less(order, rest[j], b)
    ensures Sorted(order, [b] + rest)
  {
  }

  lemma {:induction false} InsertSorted(order: Order, list: seq<Block>, b: Block)
    requires Sorted(order, list)
    ensures Sorted(order, Insert(order, list, b))
  {
    if list == [] {
    } else if Less(order, b, list[0]) {
      assert forall j :: 0 < j < |list| ==> !Less(order, list[j], list[0]);
      SortedWith(order, b, list);
    } else {
      var rest := Insert(order, list[1..], b);
      InsertSorted(order, list[1..], b);
      forall j | 0 <= j < |rest| ensures !Less(order, rest[j], list[0]) {
        InsertPermutes(order, list[1..], b);
        assert rest[j] in multiset(rest);
      }
      SortedWith(order, list[0], rest);
    }
  }

  predicate Alike(order: Order, b: Block, c: Block) {
    !Less(order, b, c) && !Less(order, c, b)
  }

  /** The entries that compare as equal to b. */
  function AllAlike(order: Order, list: seq<Block>, b: Block): seq<Block> {
    if list == [] then [] else (if Alike(order, list[0], b) then [list[0]] else []) + AllAlike(order, list[1..], b)
  }

  lemma {:induction false} NoneAlike(order: Order, list: seq<Block>, b: Block)
    requires forall i :: 0 <= i < |list| ==> !Alike(order, list[i], b)
    ensures AllAlike(order, list, b) == []
  {
    if list != [] {
      NoneAlike(order, list[1..], b);
    }
  }

  lemma {:induction false} AlikeJoin(order: Order, list: seq<Block>, more: seq<Block>, b: Block)
    ensures AllAlike(order, list + more, b) == AllAlike(order, list, b) + AllAlike(order, more, b)
  {
    if list == [] {
      assert list + more == more;
    } else {
      assert (list + more)[1..] == list[1..] + more;
      AlikeJoin(order, list[1..], more, b);
    }
  }

  lemma {:induction false} InsertStable(order: Order, list: seq<Block>, b: Block, c: Block)
    requires Sorted(order, list)
    ensures AllAlike(order, Insert(order, list, b), c) == AllAlike(order, list + [b], c)
  {
    AlikeJoin(order, list, [b], c);
    if list == [] {
      assert list + [b] == [b];
    } else if Less(order, b, list[0]) {
      AlikeJoin(order, [b], list, c);
      if Alike(order, b, c) {
        NoneAlike(order, list, c);
      }
    } else {
      var head, rest := [list[0]], Insert(order, list[1..], b);
      InsertStable(order, list[1..], b, c);
      AlikeJoin(order, head, rest, c);
      AlikeJoin(order, head, list[1..] + [b], c);
      assert list + [b] == head + (list[1..] + [b]);
    }
  }

  /** A stable sort: the same entries, in order, and those that compare as equal in the order they came in. */
  lemma {:induction false} SortIs(order: Order, list: seq<Block>, u: int, c: Block)
    ensures Covers(Sort(order, list), u) == Covers(list, u)
    ensures multiset(Sort(order, list)) == multiset(list)
    ensures Sorted(order, Sort(order, list))
    ensures AllAlike(order, Sort(order, list), c) == AllAlike(order, list, c)
  {
    if list != [] {
      var init, b := list[..|list| - 1], list[|list| - 1];
      SortIs(order, init, u, c);
      InsertIs(order, Sort(order, init), b, u);
      InsertPermutes(order, Sort(order, init), b);
      InsertSorted(order, Sort(order, init), b);
      InsertStable(order, Sort(order, init), b, c);
      AlikeJoin(order, Sort(order, init), [b], c);
      AlikeJoin(order, init, [b], c);
      CoversJoin(init, [b], u);
      assert list == init + [b];
    }
  }

  // ----- Coalescing

  function Merged(curr: Block, rest: seq<Block>): (r: seq<Block>)
    ensures r != []
    decreases |rest|
  {
    if rest == [] then [curr]
    else if rest[0].addr == curr.addr + curr.size then Merged(Block(curr.addr, curr.size + rest[0].size), rest[1..])
    else [curr] + Merged(rest[0], rest[1..])
  }

  /** Every block ends before the next one begins, with something in between. */
  predicate Gapped(list: seq<Block>) {
    forall i, j :: 0 <= i < j < |list| ==> list[i].addr + list[i].size < list[j].addr
  }

  lemma {:induction false} MergedCovers(curr: Block, rest: seq<Block>, u: int)
    requires curr.size > 0 && forall b :: b in rest ==> b.size > 0
    ensures Covers(Merged(curr, rest), u) == Covers([curr] + rest, u)
    ensures forall b :: b in Merged(curr, rest) ==> b.size > 0
    decreases |rest|
  {
    assert ([curr] + rest)[1..] == rest;
    if rest == [] {
    } else if rest[0].addr == curr.addr + curr.size {
      var wide := Block(curr.addr, curr.size + rest[0].size);
      MergedCovers(wide, rest[1..], u);
      assert ([wide] + rest[1..])[1..] == rest[1..];
    } else {
      MergedCovers(rest[0], rest[1..], u);
      assert [rest[0]] + rest[1..] == rest;
      assert ([curr] + Merged(rest[0], rest[1..]))[1..] == Merged(rest[0], rest[1..]);
    }
  }

  /** All blocks lie in address order. */
  predicate InOrder(list: seq<Block>) {
    (forall i :: 0 <= i < |list| ==> list[i].size > 0)
    && forall i, j :: 0 <= i < j < |list| ==> list[i].addr + list[i].size <= list[j].addr
  }

  lemma AscendingInOrder(list: seq<Block>)
    requires Ascending(list) && Disjoint(list)
    ensures InOrder(list)
  {
    forall i, j | 0 <= i < j < |list| ensures list[i].addr + list[i].size <= list[j].addr {
      assert list[j] in list && Apart(list[i], list[j]) && list[i].addr <= list[j].addr;
    }
  }

  lemma Shifted(curr: Block, rest: seq<Block>, i: nat)
    requires InOrder([curr] + rest) && i < |rest|
    ensures rest[i].size > 0 && curr.size > 0 && curr.addr + curr.size <= rest[i].addr
    ensures forall j :: i < j < |rest| ==> rest[i].addr + rest[i].size <= rest[j].addr
  {
    var all := [curr] + rest;
    assert all[0] == curr && all[i + 1] == rest[i];
    forall j | i < j < |rest| ensures rest[i].addr + rest[i].size <= rest[j].addr {
      assert all[j + 1] == rest[j];
    }
  }

  lemma FirstTwo(curr: Block, rest: seq<Block>)
    requires rest != [] && InOrder([curr] + rest)
    ensures InOrder(rest) && curr.size > 0 && curr.addr + curr.size <= rest[0].addr
    ensures rest[0].addr == curr.addr + curr.size ==> InOrder([Block(curr.addr, curr.size + rest[0].size)] + rest[1..])
  {
    forall i: nat | i < |rest|
      ensures rest[i].size > 0 && curr.size > 0 && curr.addr + curr.size <= rest[i].addr
      ensures forall j :: i < j < |rest| ==> rest[i].addr + rest[i].size <= rest[j].addr
    {
      Shifted(curr, rest, i);
    }
    var wide := [Block(curr.addr, curr.size + rest[0].size)] + rest[1..];
    assert forall i :: 0 < i < |wide| ==> wide[i] == rest[i];
  }

  /** In address order, coalescing leaves no two blocks that touch. */
  lemma {:induction false} MergedGaps(curr: Block, rest: seq<Block>)
    requires InOrder([curr] + rest)
    ensures Gapped(Merged(curr, rest)) && Merged(curr, rest)[0].addr == curr.addr
    ensures forall b :: b in Merged(curr, rest) ==> b.size > 0
    decreases |rest|
  {
    if rest == [] {
      assert ([curr] + rest)[0] == curr;
    } else {
      FirstTwo(curr, rest);
      if rest[0].addr == curr.addr + curr.size {
        MergedGaps(Block(curr.addr, curr.size + rest[0].size), rest[1..]);
      } else {
        assert [rest[0]] + rest[1..] == rest;
        MergedGaps(rest[0], rest[1..]);
        GapBefore(curr, Merged(rest[0], rest[1..]));
      }
    }
  }

  /** In any order, coalescing leaves no entry that begins where the one before it ends. */
  lemma {:induction false} MergedApart(curr: Block, rest: seq<Block>)
    ensures var r := Merged(curr, rest);
      r[0].addr == curr.addr && forall i :: 0 <= i < |r| - 1 ==> r[i + 1].addr != r[i].addr + r[i].size
    decreases |rest|
  {
    if rest == [] {
    } else if rest[0].addr == curr.addr + curr.size {
      MergedApart(Block(curr.addr, curr.size + rest[0].size), rest[1..]);
    } else {
      MergedApart(rest[0], rest[1..]);
      var r, more := Merged(curr, rest), Merged(rest[0], rest[1..]);
      forall i | 0 <= i < |r| - 1 ensures r[i + 1].addr != r[i].addr + r[i].size {
        if i > 0 {
          assert r[i] == more[i - 1] && r[i + 1] == more[i];
        }
      }
    }
  }

  lemma GapBefore(curr: Block, list: seq<Block>)
    requires list != [] && Gapped(list) && curr.addr + curr.size < list[0].addr && list[0].size > 0
    ensures Gapped([curr] + list)
  {
    var all := [curr] + list;
    forall i, j | 0 <= i < j < |all| ensures all[i].addr + all[i].size < all[j].addr {
      assert all[j] == list[j - 1] && (i > 0 ==> all[i] == list[i - 1]);
    }
  }

  /** If no two free blocks touch, a free run lies in one of them. */
  lemma RunInOneBlock(list: seq<Block>, u: int, n: int) returns (k: nat)
    requires Gapped(list) && n > 0 && forall v :: u <= v < u + n ==> InFree(list, v)
    requires forall b :: b in list ==> b.size > 0
    ensures k < |list| && list[k].addr <= u && u + n <= list[k].addr + list[k].size
  {
    assert InFree(list, u);
    var b :| b in list && b.Has(u);
    k :| 0 <= k < |list| && list[k] == b;
    NotAtEnd(list, k);
  }

  lemma NotAtEnd(list: seq<Block>, k: nat)
    requires Gapped(list) && k < |list| && forall b :: b in list ==> b.size > 0
    ensures !InFree(list, list[k].addr + list[k].size)
  {
    var end := list[k].addr + list[k].size;
    forall c | c in list ensures !c.Has(end) {
      var j :| 0 <= j < |list| && list[j] == c;
      assert list[k].size > 0 && (j < k ==> list[j].addr + list[j].size < list[k].addr);
    }
  }

  /** The list with a freed block where its order puts it. */
  function Placed(order: Order, list: seq<Block>, b: Block): seq<Block> {
    match order
    case InsertBack => list + [b]
    case InsertFront => [b] + list
    case _ => Sort(order, list + [b])
  }

  /** Where the freed block stands: behind all others, in front of them, or where the list stays in order, by address,
      by size from small to large, or from large to small. */
  lemma PlacedWhere(order: Order, list: seq<Block>, b: Block)
    ensures multiset(Placed(order, list, b)) == multiset(list) + multiset{b}
    ensures var r := Placed(order, list, b);
      match order
      case InsertBack => r[..|list|] == list && r[|list|] == b
      case InsertFront => r[0] == b && r[1..] == list
      case AddrSort => forall i, j :: 0 <= i < j < |r| ==> r[i].addr <= r[j].addr
      case SizeSortUp => forall i, j :: 0 <= i < j < |r| ==> r[i].size <= r[j].size
      case SizeSortDown => forall i, j :: 0 <= i < j < |r| ==> r[i].size >= r[j].size
  {
    SortIs(order, list + [b], b.addr, b);
    var r := Sort(order, list + [b]);
    assert forall i, j :: 0 <= i < j < |r| ==> !Less(order, r[j], r[i]);
  }

  function Freed(order: Order, coalesce: bool, list: seq<Block>, b: Block): seq<Block> {
    var placed := Placed(order, list, b);
    if coalesce && placed != [] then Merged(placed[0], placed[1..]) else placed
  }

  lemma PlacedMembers(order: Order, list: seq<Block>, b: Block)
    ensures forall c :: c in Placed(order, list, b) <==> c in list + [b]
  {
    forall c ensures c in Sort(order, list + [b]) <==> c in list + [b] {
      SortIs(order, list + [b], b.addr, b);
      SameMembers(Sort(order, list + [b]), list + [b], c);
    }
  }

  lemma PlacedIs(order: Order, list: seq<Block>, b: Block, u: int)
    ensures Covers(Placed(order, list, b), u) == Covers(list + [b], u)
    ensures forall c :: c in Placed(order, list, b) <==> c in list + [b]
    ensures order == AddrSort ==> Ascending(Placed(order, list, b))
  {
    SortIs(order, list + [b], u, b);
    PlacedMembers(order, list, b);
    CoversJoin([b], list, u);
    CoversJoin(list, [b], u);
  }

  /** Without coalescing the list is the old one with the block freed; with it no two neighbours touch, end to start. */
  lemma FreedMerges(order: Order, coalesce: bool, list: seq<Block>, b: Block)
    ensures var r := Freed(order, coalesce, list, b);
      if coalesce then forall i :: 0 <= i < |r| - 1 ==> r[i + 1].addr != r[i].addr + r[i].size
      else multiset(r) == multiset(list) + multiset{b}
  {
    var placed := Placed(order, list, b);
    PlacedWhere(order, list, b);
    assert b in multiset(placed);
    if coalesce {
      MergedApart(placed[0], placed[1..]);
    }
  }

  lemma FreedPartition(order: Order, coalesce: bool, list: seq<Block>, live: map<int, int>, lo: int, hi: int, addr: int)
    requires Partition(list, live, lo, hi) && addr in live
    ensures Partition(Freed(order, coalesce, list, Block(addr, live[addr])), live - {addr}, lo, hi)
    ensures order == AddrSort && coalesce ==> Gapped(Freed(order, coalesce, list, Block(addr, live[addr])))
  {
    var b := Block(addr, live[addr]);
    var placed, freed := Placed(order, list, b), Freed(order, coalesce, list, b);
    GivenBack(list, live, lo, hi, addr);
    PlacedIs(order, list, b, addr);
    assert b in list + [b];
    assert placed == [placed[0]] + placed[1..];
    forall u ensures Covers(freed, u) == Covers(list + [b], u) {
      PlacedIs(order, list, b, u);
      MergedCovers(placed[0], placed[1..], u);
    }
    MergedCovers(placed[0], placed[1..], addr);
    Rearranged(list + [b], freed, live - {addr}, lo, hi);
    if order == AddrSort && coalesce {
      forall u ensures Covers(placed, u) == Covers(list + [b], u) {
        PlacedIs(order, list, b, u);
      }
      Rearranged(list + [b], placed, live - {addr}, lo, hi);
      AscendingInOrder(placed);
      MergedGaps(placed[0], placed[1..]);
    }
  }

  /** Taking from a list whose blocks do not touch leaves one whose blocks do not touch. */
  lemma TakenGaps(list: seq<Block>, k: nat, need: int)
    requires Gapped(list) && k < |list| && 0 < need <= list[k].size
    ensures Gapped(Taken(list, k, need))
  {
    var list', split := Taken(list, k, need), list[k].size > need;
    forall i, j | 0 <= i < j < |list'| ensures list'[i].addr + list'[i].size < list'[j].addr {
      var i', j' := if split || i < k then i else i + 1, if split || j < k then j else j + 1;
      assert list[i'].addr + list[i'].size < list[j'].addr;
    }
  }

  // ----- The allocator

  /** The search for need units in a heap of `limit` units looks at the entry: it is large enough, and within the bounds
      that the search starts from.  Every entry of a heap in order is within them. */
  predicate Fits(policy: Policy, limit: int, b: Block, need: int) {
    b.size >= need && (policy == Best ==> b.size <= limit) && (policy == Worst ==> b.size >= 0)
  }

  /** Among the first n entries, entry k is the one that the policy chooses of those that fit. */
  ghost predicate ChosenOf(policy: Policy, limit: int, list: seq<Block>, n: int, need: int, k: int)
    requires n <= |list|
  {
    0 <= k < n && Fits(policy, limit, list[k], need)
    && match policy
       case First => forall i :: 0 <= i < k ==> !Fits(policy, limit, list[i], need)
       case Best =>
         (forall i :: 0 <= i < n && Fits(policy, limit, list[i], need) ==> list[k].size <= list[i].size)
         && forall i :: 0 <= i < k && Fits(policy, limit, list[i], need) ==> list[k].size < list[i].size
       case Worst =>
         (forall i :: 0 <= i < n && Fits(policy, limit, list[i], need) ==> list[k].size >= list[i].size)
         && forall i :: 0 <= i < k && Fits(policy, limit, list[i], need) ==> list[k].size > list[i].size
  }

  ghost predicate Chosen(policy: Policy, limit: int, list: seq<Block>, need: int, k: int) {
    ChosenOf(policy, limit, list, |list|, need, k)
  }

  predicate NoneFits(policy: Policy, limit: int, list: seq<Block>, n: int, need: int)
    requires n <= |list|
  {
    forall i :: 0 <= i < n ==> !Fits(policy, limit, list[i], need)
  }

  predicate NoneLarge(list: seq<Block>, need: int) {
    forall i :: 0 <= i < |list| ==> list[i].size < need
  }

  /** In a heap in order an entry fits exactly if it is large enough. */
  lemma FitsIfLarge(policy: Policy, list: seq<Block>, live: map<int, int>, lo: int, limit: int, need: int)
    requires Partition(list, live, lo, lo + limit)
    ensures NoneFits(policy, limit, list, |list|, need) <==> NoneLarge(list, need)
  {
    InHeap(list, live, lo, lo + limit);
    assert forall i :: 0 <= i < |list| ==> list[i] in list;
    assert forall i :: 0 <= i < |list| ==> (Fits(policy, limit, list[i], need) <==> list[i].size >= need);
  }

  /** The policy chooses one entry only. */
  lemma OneChosen(policy: Policy, limit: int, list: seq<Block>, need: int, k: nat, m: nat)
    requires Chosen(policy, limit, list, need, k) && Chosen(policy, limit, list, need, m)
    ensures k == m
  {
  }

  /** The entry k chosen by the policy has given need units at address ptr. */
  ghost predicate AllocatedFrom(policy: Policy, limit: int, list: seq<Block>, need: int, k: nat, ptr: int,
                                list': seq<Block>) {
    Chosen(policy, limit, list, need, k) && ptr == list[k].addr && list' == Taken(list, k, need)
  }

  /** The entry chosen begins at an address that is handed out already. */
  ghost predicate TakenTwice(policy: Policy, limit: int, list: seq<Block>, need: int, live: map<int, int>) {
    exists k: nat :: Chosen(policy, limit, list, need, k) && list[k].addr in live
  }

  lemma ChosenGiven(policy: Policy, limit: int, list: seq<Block>, need: int, k: nat, live: map<int, int>)
    requires Chosen(policy, limit, list, need, k)
    ensures TakenTwice(policy, limit, list, need, live) <==> list[k].addr in live
    ensures !NoneFits(policy, limit, list, |list|, need)
  {
    if m: nat :| Chosen(policy, limit, list, need, m) && list[m].addr in live {
      OneChosen(policy, limit, list, need, k, m);
    }
  }

  /** Taking need units from an entry of a heap in order keeps it so exactly if that is at least one unit. */
  lemma TakenOk(list: seq<Block>, live: map<int, int>, lo: int, hi: int, k: nat, need: int, gapped: bool)
    requires Partition(list, live, lo, hi) && k < |list| && list[k].size >= need && (gapped ==> Gapped(list))
    ensures list[k].addr !in live && lo <= list[k].addr
    ensures var list', live' := Taken(list, k, need), live[list[k].addr := need];
      (need > 0 <==> Partition(list', live', lo, hi) && (gapped ==> Gapped(list')))
      && (need <= 0 ==> InFree(list, list[k].addr) && InFree(list', list[k].addr))
  {
    var list', live' := Taken(list, k, need), live[list[k].addr := need];
    FreeNotLive(list, live, lo, hi, list[k]);
    InHeap(list, live, lo, hi);
    if need > 0 {
      TakenPartition(list, live, lo, hi, k, need);
      if gapped {
        TakenGaps(list, k, need);
      }
    } else {
      assert list[k] in list && list[k].Has(list[k].addr);
      assert list'[k] in list' && list'[k].Has(list[k].addr);
      assert list[k].addr in live' && live'[list[k].addr] <= 0;
    }
  }

  class Malloc {
    const size: int
    const start: int
    const headerSize: int
    const policy: Policy
    const order: Order
    const coalesce: bool
    const align: int
    var freelist: seq<Block>
    var sizemap: map<int, int>

    /** Free and allocated blocks are the heap, and in address order with coalescing no two free blocks touch. */
    ghost predicate HeapOk(list: seq<Block>, live: map<int, int>) {
      (align == -1 || align > 0) && size > 0 && start >= 0 && Partition(list, live, start, start + size)
      && (order == AddrSort && coalesce ==> Gapped(list))
    }

    ghost predicate Valid()
      reads this
    {
      HeapOk(freelist, sizemap)
    }

    constructor (size: int, start: int, headerSize: int, policy: Policy, order: Order, coalesce: bool, align: int)
      requires align == -1 || align > 0
      ensures size > 0 && start >= 0 ==> Valid()
      ensures freelist == [Block(start, size)] && sizemap == map[]
    {
      this.size, this.start, this.headerSize, this.policy := size, start, headerSize, policy;
      this.order, this.coalesce, this.align := order, coalesce, align;
      freelist, sizemap := [Block(start, size)], map[];
      new;
      assert Block(start, size) in freelist;
    }

    /** The units that a request takes: rounded up to the alignment, and a header. */
    function Rounded(n: int): (r: int)
      requires align == -1 || align > 0
      ensures r >= n + headerSize
      ensures align > 0 ==> (r - headerSize) % align == 0 && r < n + headerSize + align
    {
      if align != -1 && n % align != 0 then
        UpToMultiple(n, align);
        n + (align - n % align) + headerSize
      else n + headerSize
    }

    /** The entry the policy chooses, or -1, and the number of entries looked at. */
    method Search(need: int) returns (bestIdx: int, count: int)
      ensures if bestIdx == -1 then count == |freelist| && NoneFits(policy, size, freelist, |freelist|, need)
              else Chosen(policy, size, freelist, need, bestIdx)
                   && count == (if policy == First then bestIdx + 1 else |freelist|)
    {
      bestIdx, count := -1, 0;
      var bestSize := if policy == Best then size + 1 else -1;
      var i := 0;
      while i < |freelist|
        invariant 0 <= i <= |freelist| && count == i
        invariant bestIdx == -1 ==> bestSize == (if policy == Best then size + 1 else -1)
        invariant bestIdx == -1 ==> NoneFits(policy, size, freelist, i, need)
        invariant bestIdx != -1 ==> policy != First && 0 <= bestIdx < i && bestSize == freelist[bestIdx].size
        invariant bestIdx != -1 ==> ChosenOf(policy, size, freelist, i, need, bestIdx)
      {
        var esize := freelist[i].size;
        count := count + 1;
        if esize >= need && ((policy == Best && esize < bestSize) || (policy == Worst && esize > bestSize)
                             || policy == First) {
          bestSize, bestIdx := esize, i;
          if policy == First {
            return;
          }
        }
        i := i + 1;
      }
    }

    /**
     * A request.  In a heap in order it fails exactly if no entry is large enough, and one that comes to no units at
     * all, or fewer, is met by an address that stays free.  `ok` is false if the assertion fails that no address is
     * handed out twice.
     */
    method Malloc(n: int) returns (ptr: int, count: int, ok: bool)
      requires align == -1 || align > 0
      modifies this
      ensures !ok <==> TakenTwice(policy, size, old(freelist), Rounded(n), old(sizemap))
      ensures var none := NoneFits(policy, size, old(freelist), |old(freelist)|, Rounded(n));
        (none ==> ptr == -1 && freelist == old(freelist) && sizemap == old(sizemap) && count == |old(freelist)|)
        && (ok && !none ==>
              (exists k: nat :: AllocatedFrom(policy, size, old(freelist), Rounded(n), k, ptr, freelist))
              && ptr !in old(sizemap) && sizemap == old(sizemap)[ptr := Rounded(n)])
      ensures old(Valid()) ==> ok && (ptr == -1 <==> NoneLarge(old(freelist), Rounded(n)))
      ensures old(Valid()) ==> (Valid() <==> Rounded(n) > 0 || ptr == -1)
      ensures old(Valid()) && Rounded(n) <= 0 && ptr != -1 ==> InFree(old(freelist), ptr) && InFree(freelist, ptr)
    {
      var need := Rounded(n);
      var bestIdx;
      ghost var list, live, inOrder := freelist, sizemap, Valid();
      bestIdx, count := Search(need);
      if bestIdx == -1 {
        ptr, ok := -1, true;
      } else {
        ChosenGiven(policy, size, list, need, bestIdx, live);
        ptr, ok := Take(bestIdx, need);
        assert ok ==> AllocatedFrom(policy, size, list, need, bestIdx, ptr, freelist);
      }
      if inOrder {
        Keeps(list, live, need, bestIdx);
      }
    }

    /** Entry k gives its front, and its address is noted; `ok` is false if it is handed out already. */
    method Take(k: nat, need: int) returns (ptr: int, ok: bool)
      requires k < |freelist|
      modifies this
      ensures ptr == old(freelist)[k].addr && freelist == Taken(old(freelist), k, need)
      ensures ok <==> ptr !in old(sizemap)
      ensures sizemap == if ok then old(sizemap)[ptr := need] else old(sizemap)
    {
      var best := freelist[k];
      if best.size > need {
        freelist := freelist[k := Block(best.addr + need, best.size - need)];
      } else {
        freelist := freelist[..k] + freelist[k + 1..];
      }
      ptr, ok := best.addr, best.addr !in sizemap;
      if ok {
        sizemap := sizemap[best.addr := need];
      }
    }

    /** What a request makes of a heap in order; k is the entry chosen, or -1. */
    lemma Keeps(list: seq<Block>, live: map<int, int>, need: int, k: int)
      requires HeapOk(list, live)
      requires k == -1 ==> NoneFits(policy, size, list, |list|, need)
      requires k != -1 ==> 0 <= k < |list| && list[k].size >= need
      ensures k == -1 <==> NoneLarge(list, need)
      ensures k != -1 ==> list[k].addr !in live && list[k].addr >= 0
      ensures k != -1 ==> (HeapOk(Taken(list, k, need), live[list[k].addr := need]) <==> need > 0)
      ensures k != -1 && need <= 0 ==> InFree(list, list[k].addr) && InFree(Taken(list, k, need), list[k].addr)
    {
      if k == -1 {
        FitsIfLarge(policy, list, live, start, size, need);
      } else {
        TakenOk(list, live, start, start + size, k, need, order == AddrSort && coalesce);
      }
    }

    /** One pass that joins each entry to the one before it if they touch. */
    method Coalesce(list: seq<Block>) returns (newlist: seq<Block>)
      requires list != []
      ensures newlist == Merged(list[0], list[1..])
    {
      newlist := [];
      var curr, i := list[0], 1;
      while i < |list|
        invariant 1 <= i <= |list|
        invariant newlist + Merged(curr, list[i..]) == Merged(list[0], list[1..])
      {
        var e := list[i];
        assert list[i..][0] == e && list[i..][1..] == list[i + 1..];
        if e.addr == curr.addr + curr.size {
          curr := Block(curr.addr, curr.size + e.size);
        } else {
          newlist := newlist + [curr];
          curr := e;
        }
        i := i + 1;
      }
      newlist := newlist + [curr];
    }

    /** Freeing, which leaves a heap in order if it was. */
    method Free(addr: int) returns (rc: int)
      modifies this
      ensures old(Valid()) ==> Valid()
      ensures addr !in old(sizemap) ==> rc == -1 && freelist == old(freelist) && sizemap == old(sizemap)
      ensures addr in old(sizemap) ==> rc == 0 && sizemap == old(sizemap) - {addr}
      ensures addr in old(sizemap) ==>
                freelist == Freed(order, coalesce, old(freelist), Block(addr, old(sizemap)[addr]))
    {
      if addr !in sizemap {
        return -1;
      }
      if Valid() {
        FreedPartition(order, coalesce, freelist, sizemap, start, start + size, addr);
      }
      freelist := Placed(order, freelist, Block(addr, sizemap[addr]));
      if coalesce && freelist != [] {
        freelist := Coalesce(freelist);
      }
      sizemap := sizemap - {addr};
      rc := 0;
    }
  }

  lemma FreeNotLive(list: seq<Block>, live: map<int, int>, lo: int, hi: int, b: Block)
    requires Partition(list, live, lo, hi) && b in list
    ensures b.addr !in live && b.size > 0
  {
    assert b.addr in live ==> Apart(b, Block(b.addr, live[b.addr]));
  }

  lemma InHeap(list: seq<Block>, live: map<int, int>, lo: int, hi: int)
    requires Partition(list, live, lo, hi)
    ensures forall b :: b in list ==> lo <= b.addr && b.addr + b.size <= hi
  {
    forall b | b in list ensures lo <= b.addr && b.addr + b.size <= hi {
      assert b.Has(b.addr) && InFree(list, b.addr);
      assert b.Has(b.addr + b.size - 1) && InFree(list, b.addr + b.size - 1);
    }
  }

  /** A free run of n units, from u on. */
  ghost predicate Run(list: seq<Block>, u: int, n: int) {
    forall v :: u <= v < u + n ==> InFree(list, v)
  }

  /** In address order with coalescing, an entry is large enough exactly if there is a free run of that size. */
  lemma FitsIffRun(list: seq<Block>, live: map<int, int>, lo: int, hi: int, need: int)
    requires Partition(list, live, lo, hi) && Gapped(list) && need > 0
    ensures (exists i :: 0 <= i < |list| && list[i].size >= need) <==> (exists u :: Run(list, u, need))
  {
    if i :| 0 <= i < |list| && list[i].size >= need {
      var b := list[i];
      forall v | b.addr <= v < b.addr + need ensures InFree(list, v) {
        assert b in list && b.Has(v);
      }
      assert Run(list, b.addr, need);
    }
    if u :| Run(list, u, need) {
      var k := RunInOneBlock(list, u, need);
    }
  }
}
