/** The skew heap: entries linked by parent, left and right pointers, merged in place.

    `Tree` is the heap as a value and `MergeTree` the algorithm on values.  The
    pointer version is proved to build exactly its result; heap order, contents and
    amortised cost are proved of it. */
module SkewHeap {
  import opened Words

  /** A heap entry.  `item` is what the comparison looks at, fixed while the entry lives. */
  class Entry<T> {
    var parent: Entry?<T>
    var left: Entry?<T>
    var right: Entry?<T>
    const item: T

    constructor (item: T)
      ensures this.item == item && parent == null && left == null && right == null
    {
      this.item := item;
      parent, left, right := null, null, null;
    }
  }

  datatype Tree<T> = Nil | Node(left: Tree<T>, entry: Entry<T>, right: Tree<T>)

  type Compare<!T> = (T, T) -> int

  // ----- Trees as values

  ghost function Entries<T>(t: Tree<T>): set<Entry<T>> {
    match t
    case Nil => {}
    case Node(l, e, r) => Entries(l) + {e} + Entries(r)
  }

  ghost function Count<T>(t: Tree<T>): nat {
    match t
    case Nil => 0
    case Node(l, e, r) => Count(l) + 1 + Count(r)
  }

  ghost function Root<T>(t: Tree<T>): Entry?<T> {
    if t.Nil? then null else t.entry
  }

  /** No entry occurs twice. */
  ghost predicate Unshared<T>(t: Tree<T>) {
    match t
    case Nil => true
    case Node(l, e, r) =>
      Unshared(l) && Unshared(r) && e !in Entries(l) && e !in Entries(r) && Entries(l) !! Entries(r)
  }

  /** `upper` may stand above `lower`: the comparison does not call `lower` less. */
  predicate NotAfter<T>(comp: Compare<T>, upper: T, lower: T) {
    comp(lower, upper) != -1
  }

  /** -1 means less; less is asymmetric, and not-less is transitive. */
  ghost predicate TotalPreorder<T(!new)>(comp: Compare<T>) {
    (forall x, y :: comp(x, y) == -1 ==> comp(y, x) != -1) &&
    (forall x, y, z :: NotAfter(comp, x, y) && NotAfter(comp, y, z) ==> NotAfter(comp, x, z))
  }

  ghost predicate Ordered<T>(t: Tree<T>, comp: Compare<T>) {
    match t
    case Nil => true
    case Node(l, e, r) =>
      Ordered(l, comp) && Ordered(r, comp) &&
      (l.Node? ==> NotAfter(comp, e.item, l.entry.item)) &&
      (r.Node? ==> NotAfter(comp, e.item, r.entry.item))
  }

  ghost function MergeTree<T>(a: Tree<T>, b: Tree<T>, comp: Compare<T>): Tree<T>
    decreases a, b
  {
    if a.Nil? then b
    else if b.Nil? then a
    else if comp(a.entry.item, b.entry.item) == -1 then
      Node(MergeTree(a.right, b, comp), a.entry, a.left)
    else
      Node(MergeTree(a, b.right, comp), b.entry, b.left)
  }

  /** The entry of the second heap wins a tie: inserted into a heap with nothing less than it, an entry becomes the
      root, and otherwise the root stays. */
  lemma InsertedRoot<T>(a: Tree<T>, e: Entry<T>, comp: Compare<T>)
    ensures var r := MergeTree(a, Node(Nil, e, Nil), comp);
      r.Node? && r.entry == if a.Node? && comp(a.entry.item, e.item) == -1 then a.entry else e
    ensures (forall x :: x in Entries(a) ==> comp(x.item, e.item) != -1) ==>
      MergeTree(a, Node(Nil, e, Nil), comp).entry == e
  {
  }

  lemma {:induction false} MergeContents<T>(a: Tree<T>, b: Tree<T>, comp: Compare<T>)
    requires Unshared(a) && Unshared(b) && Entries(a) !! Entries(b)
    ensures Unshared(MergeTree(a, b, comp))
    ensures Entries(MergeTree(a, b, comp)) == Entries(a) + Entries(b)
    ensures Count(MergeTree(a, b, comp)) == Count(a) + Count(b)
    decreases a, b
  {
    if a.Node? && b.Node? {
      if comp(a.entry.item, b.entry.item) == -1 {
        MergeContents(a.right, b, comp);
      } else {
        MergeContents(a, b.right, comp);
      }
    }
  }

  lemma {:induction false} MergeOrdered<T(!new)>(a: Tree<T>, b: Tree<T>, comp: Compare<T>)
    requires TotalPreorder(comp) && Ordered(a, comp) && Ordered(b, comp)
    ensures Ordered(MergeTree(a, b, comp), comp)
    decreases a, b
  {
    if a.Node? && b.Node? {
      if comp(a.entry.item, b.entry.item) == -1 {
        MergeOrdered(a.right, b, comp);
      } else {
        MergeOrdered(a, b.right, comp);
      }
    }
  }

  /** The root of a heap is a least entry. */
  lemma {:induction false} RootIsLeast<T(!new)>(t: Tree<T>, comp: Compare<T>, e: Entry<T>)
    requires TotalPreorder(comp) && Ordered(t, comp) && e in Entries(t)
    ensures t.Node? && NotAfter(comp, t.entry.item, e.item)
  {
    if e != t.entry {
      var child := if e in Entries(t.left) then t.left else t.right;
      RootIsLeast(child, comp, e);
      assert NotAfter(comp, t.entry.item, child.entry.item);
    }
  }

  // ----- Removing an arbitrary entry

  ghost function RemoveTree<T>(t: Tree<T>, e: Entry<T>, comp: Compare<T>): Tree<T>
    requires e in Entries(t)
  {
    if e == t.entry then MergeTree(t.left, t.right, comp)
    else if e in Entries(t.left) then t.(left := RemoveTree(t.left, e, comp))
    else t.(right := RemoveTree(t.right, e, comp))
  }

  lemma {:induction false} RemoveContents<T>(t: Tree<T>, e: Entry<T>, comp: Compare<T>)
    requires Unshared(t) && e in Entries(t)
    ensures Unshared(RemoveTree(t, e, comp))
    ensures Entries(RemoveTree(t, e, comp)) == Entries(t) - {e}
    ensures Count(RemoveTree(t, e, comp)) == Count(t) - 1
  {
    if e == t.entry {
      MergeContents(t.left, t.right, comp);
    } else if e in Entries(t.left) {
      RemoveContents(t.left, e, comp);
    } else {
      RemoveContents(t.right, e, comp);
    }
  }

  lemma {:induction false} RemoveOrdered<T(!new)>(t: Tree<T>, e: Entry<T>, comp: Compare<T>)
    requires TotalPreorder(comp) && Unshared(t) && Ordered(t, comp) && e in Entries(t)
    ensures Ordered(RemoveTree(t, e, comp), comp)
  {
    if e == t.entry {
      MergeOrdered(t.left, t.right, comp);
    } else {
      var side := if e in Entries(t.left) then t.left else t.right;
      RemoveOrdered(side, e, comp);
      RemoveContents(side, e, comp);
      var side' := RemoveTree(side, e, comp);
      if side'.Node? {
        assert side'.entry in Entries(side');
        RootIsLeast(side, comp, side'.entry);
        assert NotAfter(comp, t.entry.item, side.entry.item);
      }
    }
  }

  // ----- Trees in memory

  /** The pointers of the entries spell out the tree.  The root's own parent pointer
      belongs to whatever stands above it. */
  ghost predicate Linked<T>(t: Tree<T>)
    reads Entries(t)
  {
    match t
    case Nil => true
    case Node(l, e, r) =>
      e.left == Root(l) && e.right == Root(r) && Linked(l) && Linked(r) &&
      (l.Node? ==> l.entry.parent == e) && (r.Node? ==> r.entry.parent == e)
  }

  /** A heap in memory: linked, without sharing, under a root with no parent. */
  ghost predicate Heap<T>(t: Tree<T>)
    reads Entries(t)
  {
    Unshared(t) && Linked(t) && (t.Node? ==> t.entry.parent == null)
  }

  /** The assignments that hang the merged part to the left of e and e's old left part
      to its right. */
  method Adopt<T>(e: Entry<T>, l: Entry?<T>, r: Entry?<T>, ghost sub: Tree<T>, ghost kept: Tree<T>)
    requires l == Root(sub) && Linked(sub) && r == Root(kept) && Linked(kept)
    requires kept.Node? ==> kept.entry.parent == e
    requires Unshared(Node(sub, e, kept))
    modifies e`left, e`right, if l == null then {} else {l}
    ensures Linked(Node(sub, e, kept)) && e.parent == old(e.parent)
  {
    e.left := l;
    e.right := r;
    if l != null {
      l.parent := e;
    }
  }

  /** skew_heap_merge.  `calls` counts the calls in which neither heap is empty; the
      ghost parameters are the two heaps as values and their entries. */
  method Merge<T>(a: Entry?<T>, b: Entry?<T>, comp: Compare<T>,
                  ghost ta: Tree<T>, ghost tb: Tree<T>, ghost sa: set<Entry<T>>, ghost sb: set<Entry<T>>)
    returns (root: Entry?<T>, ghost calls: nat)
    requires a == Root(ta) && Unshared(ta) && Linked(ta) && sa == Entries(ta)
    requires b == Root(tb) && Unshared(tb) && Linked(tb) && sb == Entries(tb)
    requires sa !! sb
    modifies sa, sb
    ensures var t := MergeTree(ta, tb, comp); root == Root(t) && Linked(t)
    ensures root != null ==> root.parent == old(root.parent)
    ensures calls == MergeCost(ta, tb, comp)
    decreases ta, tb
  {
    if a == null {
      return b, 0;
    } else if b == null {
      return a, 0;
    }
    var l, r;
    if comp(a.item, b.item) == -1 {
      ghost var sub, rest := MergeTree(ta.right, tb, comp), Entries(ta.right);
      MergeContents(ta.right, tb, comp);
      r := a.left;
      l, calls := Merge(a.right, b, comp, ta.right, tb, rest, sb);
      Adopt(a, l, r, sub, ta.left);
      root := a;
    } else {
      ghost var sub, rest := MergeTree(ta, tb.right, comp), Entries(tb.right);
      MergeContents(ta, tb.right, comp);
      r := b.left;
      l, calls := Merge(a, b.right, comp, ta, tb.right, sa, rest);
      Adopt(b, l, r, sub, tb.left);
      root := b;
    }
    calls := calls + 1;
  }

  // ----- Amortised cost

  ghost function MergeCost<T>(a: Tree<T>, b: Tree<T>, comp: Compare<T>): nat
    decreases a, b
  {
    if a.Nil? || b.Nil? then 0
    else if comp(a.entry.item, b.entry.item) == -1 then 1 + MergeCost(a.right, b, comp)
    else 1 + MergeCost(a, b.right, comp)
  }

  /** The potential: the entries whose right side is larger than their left. */
  ghost function Potential<T>(t: Tree<T>): nat {
    match t
    case Nil => 0
    case Node(l, e, r) => Potential(l) + Potential(r) + (if Count(r) > Count(l) then 1 else 0)
  }

  /** The entries on the right spine that are not right-heavy. */
  ghost function Lights<T>(t: Tree<T>): nat {
    match t
    case Nil => 0
    case Node(l, e, r) => Lights(r) + (if Count(r) > Count(l) then 0 else 1)
  }

  lemma {:induction false} FewLights<T>(t: Tree<T>)
    ensures Pow2(Lights(t)) <= Count(t) + 1
  {
    if t.Node? {
      FewLights(t.right);
    }
  }

  lemma {:induction false} MergeAmortised<T>(a: Tree<T>, b: Tree<T>, comp: Compare<T>)
    requires Unshared(a) && Unshared(b) && Entries(a) !! Entries(b)
    ensures MergeCost(a, b, comp) + Potential(MergeTree(a, b, comp))
         <= Potential(a) + Potential(b) + 2 * (Lights(a) + Lights(b))
    decreases a, b
  {
    if a.Node? && b.Node? {
      if comp(a.entry.item, b.entry.item) == -1 {
        MergeAmortised(a.right, b, comp);
        MergeContents(a.right, b, comp);
      } else {
        MergeAmortised(a, b.right, comp);
        MergeContents(a, b.right, comp);
      }
    }
  }

  /** floor(log2(n)) for positive n. */
  function Log2(n: nat): nat {
    if n <= 1 then 0 else 1 + Log2(n / 2)
  }

  lemma {:induction false} Log2Is(n: nat)
    requires n > 0
    ensures Pow2(Log2(n)) <= n < Pow2(Log2(n) + 1)
  {
    if n > 1 {
      Log2Is(n / 2);
    }
  }

  lemma {:induction false} Log2Above(k: nat, n: nat)
    requires Pow2(k) <= n
    ensures k <= Log2(n)
  {
    if k > 0 {
      Log2Above(k - 1, n / 2);
    }
  }

  lemma {:induction false} Log2Monotone(m: nat, n: nat)
    requires m <= n
    ensures Log2(m) <= Log2(n)
  {
    if m > 1 {
      Log2Monotone(m / 2, n / 2);
    }
  }

  lemma {:induction false} LightsLog<T>(t: Tree<T>)
    ensures Lights(t) <= Log2(Count(t) + 1)
  {
    FewLights(t);
    var k, n := Lights(t), Count(t) + 1;
    Log2Above(k, n);
  }

  /** Every merge pays for its calls out of the potential, up to a logarithm. */
  lemma MergeBound<T>(a: Tree<T>, b: Tree<T>, comp: Compare<T>)
    requires Unshared(a) && Unshared(b) && Entries(a) !! Entries(b)
    ensures MergeCost(a, b, comp) + Potential(MergeTree(a, b, comp))
         <= Potential(a) + Potential(b) + 2 * (Log2(Count(a) + 1) + Log2(Count(b) + 1))
  {
    MergeAmortised(a, b, comp);
    LightsLog(a);
    LightsLog(b);
  }

  // ----- Runs of operations

  datatype Op<T> = Insert(entry: Entry<T>) | Pop

  ghost predicate Applicable<T>(t: Tree<T>, op: Op<T>) {
    match op
    case Insert(e) => e !in Entries(t)
    case Pop => t.Node?
  }

  ghost function Apply<T>(t: Tree<T>, op: Op<T>, comp: Compare<T>): Tree<T>
    requires Applicable(t, op)
  {
    match op
    case Insert(e) => MergeTree(t, Node(Nil, e, Nil), comp)
    case Pop => RemoveTree(t, t.entry, comp)
  }

  ghost function OpCost<T>(t: Tree<T>, op: Op<T>, comp: Compare<T>): nat
    requires Applicable(t, op)
  {
    match op
    case Insert(e) => MergeCost(t, Node(Nil, e, Nil), comp)
    case Pop => MergeCost(t.left, t.right, comp)
  }

  ghost predicate Run<T>(ops: seq<Op<T>>, heaps: seq<Tree<T>>, comp: Compare<T>) {
    |heaps| == |ops| + 1 && heaps[0] == Nil &&
    forall i :: 0 <= i < |ops| ==> RunStep(ops, heaps, comp, i)
  }

  ghost predicate RunStep<T>(ops: seq<Op<T>>, heaps: seq<Tree<T>>, comp: Compare<T>, i: nat)
    requires i < |ops| && |heaps| == |ops| + 1
  {
    Applicable(heaps[i], ops[i]) && heaps[i + 1] == Apply(heaps[i], ops[i], comp)
  }

  ghost function TotalCost<T>(ops: seq<Op<T>>, heaps: seq<Tree<T>>, comp: Compare<T>, n: nat): nat
    requires n <= |ops| && Run(ops, heaps, comp)
  {
    if n == 0 then 0
    else
      assert RunStep(ops, heaps, comp, n - 1);
      TotalCost(ops, heaps, comp, n - 1) + OpCost(heaps[n - 1], ops[n - 1], comp)
  }

  lemma {:induction false} InsertBound<T>(t: Tree<T>, e: Entry<T>, comp: Compare<T>)
    requires Unshared(t) && e !in Entries(t)
    ensures var single := Node(Nil, e, Nil); var t' := MergeTree(t, single, comp);
      Unshared(t') && Count(t') == Count(t) + 1
      && MergeCost(t, single, comp) + Potential(t') <= Potential(t) + 2 * Log2(Count(t) + 1) + 2
  {
    var single := Node(Nil, e, Nil);
    assert Entries(single) == {e} && Count(single) == 1 && Potential(single) == 0;
    MergeContents(t, single, comp);
    MergeBound(t, single, comp);
    assert Log2(2) == 1;
  }

  lemma PopBound<T>(l: Tree<T>, r: Tree<T>, n: nat, comp: Compare<T>)
    requires Unshared(l) && Unshared(r) && Entries(l) !! Entries(r) && Count(l) <= n && Count(r) <= n
    ensures Unshared(MergeTree(l, r, comp)) && Count(MergeTree(l, r, comp)) == Count(l) + Count(r)
    ensures MergeCost(l, r, comp) + Potential(MergeTree(l, r, comp)) <= Potential(l) + Potential(r) + 4 * Log2(n + 1)
  {
    MergeContents(l, r, comp);
    MergeBound(l, r, comp);
    PartLog(l, n);
    PartLog(r, n);
  }

  lemma PartLog<T>(t: Tree<T>, n: nat)
    requires Count(t) <= n
    ensures Log2(Count(t) + 1) <= Log2(n + 1)
  {
    Log2Monotone(Count(t) + 1, n + 1);
  }

  lemma OpBound<T>(t: Tree<T>, op: Op<T>, comp: Compare<T>)
    requires Unshared(t) && Applicable(t, op)
    ensures Unshared(Apply(t, op, comp)) && Count(Apply(t, op, comp)) <= Count(t) + 1
    ensures OpCost(t, op, comp) + Potential(Apply(t, op, comp)) <= Potential(t) + 4 * Log2(Count(t) + 1) + 2
  {
    match op
    case Insert(e) => InsertBound(t, e, comp);
    case Pop => PopBound(t.left, t.right, Count(t), comp);
  }

  lemma {:induction false} RunInvariant<T>(ops: seq<Op<T>>, heaps: seq<Tree<T>>, comp: Compare<T>, n: nat, bound: nat)
    requires n <= |ops| && Run(ops, heaps, comp) && bound == 4 * Log2(|ops| + 1) + 2
    ensures Unshared(heaps[n]) && Count(heaps[n]) <= n
    ensures TotalCost(ops, heaps, comp, n) + Potential(heaps[n]) <= n * bound
  {
    if n > 0 {
      RunInvariant(ops, heaps, comp, n - 1, bound);
      assert RunStep(ops, heaps, comp, n - 1);
      OpBound(heaps[n - 1], ops[n - 1], comp);
      Log2Monotone(Count(heaps[n - 1]) + 1, |ops| + 1);
      assert n * bound == (n - 1) * bound + bound;
    }
  }

  /** m operations from an empty heap make at most m * (4 log2(m + 1) + 2) calls in all. */
  lemma RunCost<T>(ops: seq<Op<T>>, heaps: seq<Tree<T>>, comp: Compare<T>)
    requires Run(ops, heaps, comp)
    ensures TotalCost(ops, heaps, comp, |ops|) <= |ops| * (4 * Log2(|ops| + 1) + 2)
  {
    RunInvariant(ops, heaps, comp, |ops|, 4 * Log2(|ops| + 1) + 2);
  }

  // ----- Insertion and removal in memory

  /** skew_heap_insert. */
  method InsertEntry<T>(a: Entry?<T>, b: Entry<T>, comp: Compare<T>, ghost t: Tree<T>)
    returns (root: Entry?<T>, ghost calls: nat)
    requires a == Root(t) && Heap(t) && b !in Entries(t)
    modifies b, Entries(t)
    ensures var t' := Apply(t, Insert(b), comp); root == Root(t') && Heap(t')
    ensures calls == OpCost(t, Insert(b), comp)
    ensures root == if t.Node? && comp(t.entry.item, b.item) == -1 then a else b
  {
    b.left, b.right, b.parent := null, null, null;
    ghost var single := Node(Nil, b, Nil);
    MergeContents(t, single, comp);
    MergeRoot(t, single, comp);
    InsertedRoot(t, b, comp);
    root, calls := Merge(a, b, comp, t, single, Entries(t), {b});
  }

  lemma MergeRoot<T>(a: Tree<T>, b: Tree<T>, comp: Compare<T>)
    ensures Root(MergeTree(a, b, comp)) == Root(a) || Root(MergeTree(a, b, comp)) == Root(b)
  {
  }

  /** The subtree under an entry. */
  ghost function SubtreeAt<T>(t: Tree<T>, e: Entry<T>): (s: Tree<T>)
    requires e in Entries(t)
    ensures s.Node? && s.entry == e && Entries(s) <= Entries(t)
  {
    if e == t.entry then t
    else if e in Entries(t.left) then SubtreeAt(t.left, e)
    else SubtreeAt(t.right, e)
  }

  ghost function Graft<T>(t: Tree<T>, e: Entry<T>, sub: Tree<T>): Tree<T>
    requires e in Entries(t)
  {
    if e == t.entry then sub
    else if e in Entries(t.left) then t.(left := Graft(t.left, e, sub))
    else t.(right := Graft(t.right, e, sub))
  }

  lemma {:induction false} RemoveIsGraft<T>(t: Tree<T>, e: Entry<T>, comp: Compare<T>)
    requires e in Entries(t)
    ensures SubtreeAt(t, e).Node? && SubtreeAt(t, e).entry == e
    ensures var s := SubtreeAt(t, e);
      RemoveTree(t, e, comp) == Graft(t, e, MergeTree(s.left, s.right, comp))
  {
    if e != t.entry {
      RemoveIsGraft(if e in Entries(t.left) then t.left else t.right, e, comp);
    }
  }

  // Snapshots of the pointers, to compare the memory before and after a removal.

  datatype Links<T> = Links(parent: Entry?<T>, left: Entry?<T>, right: Entry?<T>)

  ghost function Pointers<T>(s: set<Entry<T>>): map<Entry<T>, Links<T>>
    reads s
  {
    map e | e in s :: Links(e.parent, e.left, e.right)
  }

  ghost predicate LinkedIn<T>(t: Tree<T>, m: map<Entry<T>, Links<T>>)
    requires Entries(t) <= m.Keys
  {
    match t
    case Nil => true
    case Node(l, e, r) =>
      m[e].left == Root(l) && m[e].right == Root(r) && LinkedIn(l, m) && LinkedIn(r, m) &&
      (l.Node? ==> m[l.entry].parent == e) && (r.Node? ==> m[r.entry].parent == e)
  }

  lemma {:induction false} LinkedPointers<T>(t: Tree<T>, s: set<Entry<T>>)
    requires Entries(t) <= s
    ensures Linked(t) <==> LinkedIn(t, Pointers(s))
  {
    if t.Node? {
      LinkedPointers(t.left, s);
      LinkedPointers(t.right, s);
    }
  }

  lemma {:induction false} StaysLinked<T>(t: Tree<T>, m: map<Entry<T>, Links<T>>, m': map<Entry<T>, Links<T>>)
    requires Entries(t) <= m.Keys && LinkedIn(t, m)
    requires forall x :: x in Entries(t) ==> x in m' && m'[x] == m[x]
    ensures Entries(t) <= m'.Keys && LinkedIn(t, m')
  {
    if t.Node? {
      StaysLinked(t.left, m, m');
      StaysLinked(t.right, m, m');
    }
  }

  /** If only the child pointer of e's parent p changed outside e's subtree, and it now
      points to `sub`, then the grafted tree is linked under the same root. */
  lemma {:induction false} GraftLinked<T>(t: Tree<T>, e: Entry<T>, sub: Tree<T>, p: Entry<T>,
                                          m: map<Entry<T>, Links<T>>, m': map<Entry<T>, Links<T>>)
    requires Unshared(t) && Entries(t) <= m.Keys && LinkedIn(t, m)
    requires e in Entries(t) && e != t.entry && p == m[e].parent && p in m && m'.Keys == m.Keys
    requires Entries(sub) <= m'.Keys && LinkedIn(sub, m') && (sub.Node? ==> m'[sub.entry].parent == p)
    requires m'[p] == if m[p].left == e then m[p].(left := Root(sub)) else m[p].(right := Root(sub))
    requires forall x :: x in Entries(t) && x !in Entries(SubtreeAt(t, e)) && x != p ==> m'[x] == m[x]
    ensures Entries(Graft(t, e, sub)) <= m'.Keys && LinkedIn(Graft(t, e, sub), m')
    ensures Graft(t, e, sub).Node? && Graft(t, e, sub).entry == t.entry && m'[t.entry].parent == m[t.entry].parent
  {
    var inLeft := e in Entries(t.left);
    var side := if inLeft then t.left else t.right;
    SubtreeIn(side, e, m);
    StaysLinked(if inLeft then t.right else t.left, m, m');
    if e != side.entry {
      GraftLinked(side, e, sub, p, m, m');
    }
  }

  lemma {:induction false} SubtreeIn<T>(t: Tree<T>, e: Entry<T>, m: map<Entry<T>, Links<T>>)
    requires Unshared(t) && Entries(t) <= m.Keys && LinkedIn(t, m) && e in Entries(t)
    ensures var s := SubtreeAt(t, e);
      s.Node? && s.entry == e && Unshared(s) && Entries(s) <= Entries(t) && LinkedIn(s, m)
    ensures e != t.entry ==>
      var s, p := SubtreeAt(t, e), m[e].parent;
      p != null && p in Entries(t) && p !in Entries(s) && t.entry !in Entries(s)
      && (m[p].left == e || m[p].right == e) && m[p].left != m[p].right
  {
    if e != t.entry {
      SubtreeIn(if e in Entries(t.left) then t.left else t.right, e, m);
    }
  }

  /** The assignment that puts `rep` in b's place under b's parent p; m is the memory
      before the removal. */
  method ReplaceChild<T>(p: Entry<T>, b: Entry<T>, rep: Entry?<T>, ghost t: Tree<T>, ghost sub: Tree<T>,
                         ghost all: set<Entry<T>>, ghost m: map<Entry<T>, Links<T>>)
    requires Unshared(t) && all == Entries(t) == m.Keys && LinkedIn(t, m)
    requires b in all && b != t.entry && p == m[b].parent && p in all && p !in Entries(SubtreeAt(t, b))
    requires Linked(sub) && Entries(sub) <= Entries(SubtreeAt(t, b)) && rep == Root(sub)
    requires rep != null ==> rep.parent == p
    requires forall x :: x in all && x !in Entries(SubtreeAt(t, b)) ==> Links(x.parent, x.left, x.right) == m[x]
    modifies p
    ensures Linked(Graft(t, b, sub))
    ensures Graft(t, b, sub).Node? && Graft(t, b, sub).entry == t.entry && t.entry.parent == m[t.entry].parent
  {
    if p.left == b {
      p.left := rep;
    } else {
      p.right := rep;
    }
    ghost var m' := Pointers(all);
    LinkedPointers(sub, all);
    GraftLinked(t, b, sub, p, m, m');
    LinkedPointers(Graft(t, b, sub), all);
  }

  /** skew_heap_remove of any member. */
  method Remove<T>(a: Entry?<T>, b: Entry<T>, comp: Compare<T>, ghost t: Tree<T>)
    returns (root: Entry?<T>, ghost calls: nat)
    requires a == Root(t) && Heap(t) && b in Entries(t)
    modifies Entries(t)
    ensures var t' := RemoveTree(t, b, comp); root == Root(t') && Heap(t')
    ensures calls == MergeCost(SubtreeAt(t, b).left, SubtreeAt(t, b).right, comp)
  {
    ghost var s, all := SubtreeAt(t, b), Entries(t);
    ghost var m := Pointers(all);
    LinkedPointers(t, all);
    SubtreeIn(t, b, m);
    LinkedPointers(s, all);
    RemoveContents(t, b, comp);
    RemoveIsGraft(t, b, comp);
    MergeContents(s.left, s.right, comp);
    var p := b.parent;
    var rep;
    rep, calls := MergeChildren(b, comp, s);
    if p == null {
      root := rep;
    } else {
      ReplaceChild(p, b, rep, t, MergeTree(s.left, s.right, comp), all, m);
      root := a;
    }
  }

  /** What replaces b: its children merged, hung under b's parent. */
  method MergeChildren<T>(b: Entry<T>, comp: Compare<T>, ghost s: Tree<T>)
    returns (rep: Entry?<T>, ghost calls: nat)
    requires s.Node? && s.entry == b && Unshared(s) && Linked(s)
    modifies Entries(s.left), Entries(s.right)
    ensures var sub := MergeTree(s.left, s.right, comp); rep == Root(sub) && Linked(sub)
    ensures rep != null ==> rep.parent == b.parent
    ensures calls == MergeCost(s.left, s.right, comp)
  {
    MergeContents(s.left, s.right, comp);
    rep, calls := Merge(b.left, b.right, comp, s.left, s.right, Entries(s.left), Entries(s.right));
    if rep != null {
      assert rep in Entries(MergeTree(s.left, s.right, comp));
      rep.parent := b.parent;
    }
  }
}
