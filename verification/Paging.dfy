/** The page-replacement simulator: one pass over a trace of page accesses, with
    the eviction branch chosen by a policy.

    `Simulate` is the program's loop.  `Run` says what one policy may do to the
    list of resident pages at each access; `Serves` is the much weaker notion of
    any schedule at all that fetches on demand into at most `frames` frames.
    The theorems compare runs: OPT is optimal among all schedules, and LRU has
    the inclusion property. */
module Paging {

  datatype Policy = FIFO | LRU | MRU | RAND | CLOCK | OPT | UNOPT

  // ----- The future of a page

  /** The next access to `page` at or after `from`, or |trace| when there is none. */
  function NextUse(trace: seq<int>, page: int, from: nat): (t: nat)
    requires from <= |trace|
    ensures from <= t <= |trace|
    ensures t < |trace| ==> trace[t] == page
    ensures forall j :: from <= j < t ==> trace[j] != page
    decreases |trace| - from
  {
    if from == |trace| || trace[from] == page then from else NextUse(trace, page, from + 1)
  }

  // ----- What each policy may do

  predicate Distinct(s: seq<int>) {
    forall i, j :: 0 <= i < j < |s| ==> s[i] != s[j]
  }

  function Without(s: seq<int>, k: nat): seq<int>
    requires k < |s|
  {
    s[..k] + s[k + 1..]
  }

  /** OPT's choice: no resident page is needed later, and among the pages needed
      latest it is the last in the list. */
  predicate Farthest(trace: seq<int>, memory: seq<int>, from: nat, k: nat)
    requires from <= |trace| && k < |memory|
  {
    forall j :: 0 <= j < |memory| ==>
      var d, best := NextUse(trace, memory[j], from), NextUse(trace, memory[k], from);
      d < best || (d == best && j <= k)
  }

  /** UNOPT's choice: no resident page is needed sooner, the first such page. */
  predicate Nearest(trace: seq<int>, memory: seq<int>, from: nat, k: nat)
    requires from <= |trace| && k < |memory|
  {
    forall j :: 0 <= j < |memory| ==>
      var d, best := NextUse(trace, memory[j], from), NextUse(trace, memory[k], from);
      best < d || (best == d && k <= j)
  }

  predicate MayEvict(policy: Policy, trace: seq<int>, from: nat, memory: seq<int>, k: nat)
    requires from <= |trace| && k < |memory|
  {
    match policy
    case FIFO => k == 0
    case LRU => k == 0
    case MRU => k == |memory| - 1
    case RAND => true
    case CLOCK => true
    case OPT => Farthest(trace, memory, from, k)
    case UNOPT => Nearest(trace, memory, from, k)
  }

  /** One access, as a relation between the resident lists before and after it.
      A negative number of frames never fills up. */
  ghost predicate Step(policy: Policy, trace: seq<int>, i: nat, frames: int, before: seq<int>, after: seq<int>)
    requires i < |trace|
  {
    var page := trace[i];
    if page in before then
      if policy.LRU? || policy.MRU? then
        exists k :: 0 <= k < |before| && before[k] == page && after == Without(before, k) + [page]
      else
        after == before
    else if |before| == frames then
      exists k :: 0 <= k < |before| && MayEvict(policy, trace, i + 1, before, k)
                  && after == Without(before, k) + [page]
    else
      after == before + [page]
  }

  /** A (partial) run: the resident list before the first access and after each one. */
  ghost predicate Run(policy: Policy, trace: seq<int>, frames: int, lists: seq<seq<int>>)
  {
    1 <= |lists| <= |trace| + 1 && lists[0] == [] &&
    forall i :: 0 <= i < |lists| - 1 ==> StepAt(policy, trace, frames, lists, i)
  }

  ghost predicate StepAt(policy: Policy, trace: seq<int>, frames: int, lists: seq<seq<int>>, i: nat)
    requires i < |lists| - 1 && |lists| <= |trace| + 1
  {
    Step(policy, trace, i, frames, lists[i], lists[i + 1])
  }

  /** How many of the first n accesses miss in the run. */
  ghost function Misses(trace: seq<int>, lists: seq<seq<int>>, n: nat): nat
    requires n <= |trace| && n <= |lists|
  {
    if n == 0 then 0
    else Misses(trace, lists, n - 1) + (if trace[n - 1] in lists[n - 1] then 0 else 1)
  }

  lemma {:induction false} RunKeepsShape(policy: Policy, trace: seq<int>, frames: int, lists: seq<seq<int>>, i: nat)
    requires frames != 0 && Run(policy, trace, frames, lists) && i < |lists|
    ensures Distinct(lists[i])
    ensures 0 < frames ==> |lists[i]| <= frames
  {
    if i > 0 {
      RunKeepsShape(policy, trace, frames, lists, i - 1);
      assert StepAt(policy, trace, frames, lists, i - 1);
    }
  }

  // ----- CLOCK's reference counts

  function Positive(x: int): nat {
    if x > 0 then x else 0
  }

  /** The decrements that are still possible before every page in the list is evictable. */
  ghost function Credit(pages: seq<int>, refs: map<int, int>): nat
    requires forall p :: p in pages ==> p in refs
  {
    if pages == [] then 0
    else
      var last := pages[|pages| - 1];
      assert last in pages;
      Credit(pages[..|pages| - 1], refs) + Positive(refs[last])
  }

  lemma {:induction false} CreditUpdate(pages: seq<int>, refs: map<int, int>, k: nat, v: int)
    requires forall p :: p in pages ==> p in refs
    requires Distinct(pages) && k < |pages|
    ensures Credit(pages, refs[pages[k] := v]) == Credit(pages, refs) - Positive(refs[pages[k]]) + Positive(v)
  {
    var init, last := pages[..|pages| - 1], |pages| - 1;
    if k == last {
      CreditElsewhere(init, refs, pages[k], v);
    } else {
      assert init[k] == pages[k];
      CreditUpdate(init, refs, k, v);
    }
  }

  lemma {:induction false} CreditElsewhere(pages: seq<int>, refs: map<int, int>, q: int, v: int)
    requires forall p :: p in pages ==> p in refs
    requires q !in pages
    ensures Credit(pages, refs[q := v]) == Credit(pages, refs)
  {
    if pages != [] {
      assert pages[|pages| - 1] in pages;
      CreditElsewhere(pages[..|pages| - 1], refs, q, v);
    }
  }

  lemma {:induction false} CreditWithout(pages: seq<int>, refs: map<int, int>, k: nat)
    requires forall p :: p in pages ==> p in refs
    requires k < |pages|
    ensures forall p :: p in Without(pages, k) ==> p in refs
    ensures Credit(pages, refs) == Credit(Without(pages, k), refs) + Positive(refs[pages[k]])
  {
    var last := |pages| - 1;
    if k == last {
      assert Without(pages, k) == pages[..last];
    } else {
      CreditWithout(pages[..last], refs, k);
      var w := Without(pages, k);
      assert w[..|w| - 1] == Without(pages[..last], k);
      assert w[|w| - 1] == pages[last];
      assert pages[..last][k] == pages[k];
    }
  }

  lemma {:induction false} CreditIgnores(pages: seq<int>, refs: map<int, int>, refs': map<int, int>)
    requires forall p :: p in pages ==> p in refs && p in refs' && refs[p] == refs'[p]
    ensures Credit(pages, refs) == Credit(pages, refs')
  {
    if pages != [] {
      assert pages[|pages| - 1] in pages;
      CreditIgnores(pages[..|pages| - 1], refs, refs');
    }
  }

  /** Counting one access adds at most one unit of credit. */
  lemma CreditOfAccess(pages: seq<int>, refs: map<int, int>, page: int, v: int)
    requires Distinct(pages) && forall p :: p in pages ==> p in refs
    requires page in pages && Positive(v) <= Positive(refs[page]) + 1
    ensures Credit(pages, refs[page := v]) <= Credit(pages, refs) + 1
  {
    var k :| 0 <= k < |pages| && pages[k] == page;
    CreditUpdate(pages, refs, k, v);
  }

  lemma CreditOfFetch(pages: seq<int>, refs: map<int, int>, page: int)
    requires forall p :: p in pages ==> p in refs
    requires page !in pages
    ensures Credit(pages + [page], refs[page := 1]) == Credit(pages, refs) + 1
  {
    assert (pages + [page])[..|pages|] == pages;
    CreditElsewhere(pages, refs, page, 1);
  }

  /** The counts that random probing can leave behind: only positive counts are
      decremented, and never below zero. */
  ghost predicate Probed(refs: map<int, int>, refs': map<int, int>)
  {
    refs'.Keys == refs.Keys &&
    forall p :: p in refs ==> refs'[p] == refs[p] || 0 <= refs'[p] < refs[p]
  }

  /** How often a page was probed. */
  function ProbeCount(scan: seq<int>, p: int): nat {
    if scan == [] then 0 else ProbeCount(scan[..|scan| - 1], p) + (if scan[|scan| - 1] == p then 1 else 0)
  }

  lemma ProbeMore(scan: seq<int>, page: int)
    ensures forall p :: ProbeCount(scan + [page], p) == ProbeCount(scan, p) + (if page == p then 1 else 0)
  {
    assert (scan + [page])[..|scan|] == scan;
  }

  /** Each probe of a resident page has cost it one unit of its count, and none was probed with none left. */
  ghost predicate Charged(memory: seq<int>, refs: map<int, int>, refs': map<int, int>, scan: seq<int>) {
    forall p :: p in memory ==> p in refs && p in refs' && ChargedFor(refs[p], refs'[p], ProbeCount(scan, p))
  }

  ghost predicate ChargedFor(was: int, count: int, n: nat) {
    count == was - n && (n > 0 ==> count >= 0)
  }

  /** The page evicted had used up its count, with one more probe than that. */
  ghost predicate UsedUp(was: int, n: nat) {
    n == 1 + (if was > 0 then was else 0)
  }

  /** The CLOCK victim search.  Pages are probed at random, yet the search ends
      after at most Credit + 1 probes whatever the random choices are, because a
      probe that does not evict uses up one unit of credit. */
  method ClockVictim(memory: seq<int>, refs: map<int, int>)
    returns (k: nat, refs': map<int, int>, probes: nat, ghost scan: seq<int>)
    requires |memory| > 0 && Distinct(memory)
    requires forall p :: p in memory ==> p in refs
    ensures k < |memory| && Probed(refs, refs') && memory[k] in refs' && refs'[memory[k]] <= 0
    ensures probes - 1 == Credit(memory, refs) - Credit(memory, refs')
    ensures |scan| == probes > 0 && scan[probes - 1] == memory[k] && forall p :: p in scan ==> p in memory
    ensures Charged(memory, refs, refs', scan[..probes - 1]) && UsedUp(refs[memory[k]], ProbeCount(scan, memory[k]))
  {
    refs', probes, scan := refs, 0, [];
    while true
      invariant Probed(refs, refs')
      invariant probes == Credit(memory, refs) - Credit(memory, refs')
      invariant |scan| == probes && (forall p :: p in scan ==> p in memory) && Charged(memory, refs, refs', scan)
      decreases Credit(memory, refs')
    {
      k :| 0 <= k < |memory|;
      var page := memory[k];
      assert page in refs';
      probes := probes + 1;
      ghost var before := scan;
      ProbeMore(before, page);
      scan := scan + [page];
      if refs'[page] >= 1 {
        CreditUpdate(memory, refs', k, refs'[page] - 1);
        refs' := refs'[page := refs'[page] - 1];
      } else {
        assert scan[..probes - 1] == before;
        return;
      }
    }
  }

  // ----- The searches of OPT and UNOPT

  method WhenReferenced(trace: seq<int>, page: int, from: nat) returns (when: nat)
    requires from <= |trace|
    ensures when == NextUse(trace, page, from)
  {
    when := |trace|;
    var future := from;
    while future < |trace|
      invariant from <= future <= |trace|
      invariant NextUse(trace, page, from) == NextUse(trace, page, future)
    {
      if page == trace[future] {
        return future;
      }
      future := future + 1;
    }
  }

  method OptVictim(trace: seq<int>, memory: seq<int>, from: nat) returns (replace: nat)
    requires from <= |trace| && |memory| > 0
    ensures replace < |memory| && Farthest(trace, memory, from, replace)
  {
    var maxReplace: int, replaceIdx: int, pageIndex := -1, -1, 0;
    while pageIndex < |memory|
      invariant 0 <= pageIndex <= |memory|
      invariant pageIndex == 0 ==> maxReplace == -1
      invariant pageIndex > 0 ==> 0 <= replaceIdx < pageIndex && maxReplace == NextUse(trace, memory[replaceIdx], from)
      invariant forall j :: 0 <= j < pageIndex ==>
        var d := NextUse(trace, memory[j], from);
        d < maxReplace || (d == maxReplace && j <= replaceIdx)
    {
      var when := WhenReferenced(trace, memory[pageIndex], from);
      if when >= maxReplace {
        replaceIdx, maxReplace := pageIndex, when;
      }
      pageIndex := pageIndex + 1;
    }
    replace := replaceIdx;
  }

  method UnoptVictim(trace: seq<int>, memory: seq<int>, from: nat) returns (replace: nat)
    requires from <= |trace| && |memory| > 0
    ensures replace < |memory| && Nearest(trace, memory, from, replace)
  {
    var minReplace, replaceIdx: int, pageIndex := |trace| + 1, -1, 0;
    while pageIndex < |memory|
      invariant 0 <= pageIndex <= |memory|
      invariant pageIndex == 0 ==> minReplace == |trace| + 1
      invariant pageIndex > 0 ==> 0 <= replaceIdx < pageIndex && minReplace == NextUse(trace, memory[replaceIdx], from)
      invariant forall j :: 0 <= j < pageIndex ==>
        var d := NextUse(trace, memory[j], from);
        minReplace < d || (minReplace == d && replaceIdx <= j)
    {
      var when := WhenReferenced(trace, memory[pageIndex], from);
      if when < minReplace {
        replaceIdx, minReplace := pageIndex, when;
      }
      pageIndex := pageIndex + 1;
    }
    replace := replaceIdx;
  }

  // ----- The simulator

  /** The first index of a page that is in the list. */
  method IndexOf(memory: seq<int>, page: int) returns (k: nat)
    requires page in memory
    ensures k < |memory| && memory[k] == page
  {
    k := 0;
    while memory[k] != page
      invariant k < |memory| && page !in memory[..k]
      decreases |memory| - k
    {
      assert memory == memory[..k + 1] + memory[k + 1..];
      k := k + 1;
    }
  }

  /** The probes of one eviction: each page's count is down by its own probes, and the victim took as many as its count,
      and then the one that evicted it. */
  ghost predicate Scanned(memory: seq<int>, ref: map<int, int>, ref': map<int, int>, scan: seq<int>, victim: int) {
    scan != [] && scan[|scan| - 1] == victim && (forall p :: p in scan ==> p in memory)
    && victim in memory && victim in ref && ref'.Keys == ref.Keys - {victim}
    && UsedUp(ref[victim], ProbeCount(scan, victim))
    && forall p :: p in memory && p != victim ==>
         p in ref && p in ref' && ChargedFor(ref[p], ref'[p], ProbeCount(scan, p))
  }

  lemma ScanGiven(memory: seq<int>, refs: map<int, int>, refs': map<int, int>, scan: seq<int>, k: nat)
    requires k < |memory| && scan != [] && scan[|scan| - 1] == memory[k] && (forall p :: p in scan ==> p in memory)
    requires refs'.Keys == refs.Keys && Charged(memory, refs, refs', scan[..|scan| - 1])
    requires UsedUp(refs[memory[k]], ProbeCount(scan, memory[k]))
    ensures Scanned(memory, refs, refs' - {memory[k]}, scan, memory[k])
  {
  }

  /** The replacement branch: which index leaves a full cache. */
  method Evict(policy: Policy, trace: seq<int>, from: nat, memory: seq<int>, ref: map<int, int>)
    returns (k: nat, ref': map<int, int>, probes: nat, ghost scan: seq<int>)
    requires from <= |trace| && |memory| > 0 && Distinct(memory)
    requires forall p :: p in memory ==> p in ref
    ensures k < |memory| && MayEvict(policy, trace, from, memory, k)
    ensures forall p :: p in Without(memory, k) ==> p in ref'
    ensures policy.CLOCK? ==> ref'.Keys == ref.Keys - {memory[k]}
    ensures policy.CLOCK? ==> Credit(Without(memory, k), ref') + probes == Credit(memory, ref) + 1
    ensures |scan| == probes
    ensures if policy.CLOCK? then Scanned(memory, ref, ref', scan, memory[k]) else scan == [] && ref' == ref
  {
    ref', probes, scan := ref, 0, [];
    match policy {
      case FIFO => k := 0;
      case LRU => k := 0;
      case MRU => k := |memory| - 1;
      case RAND => k :| 0 <= k < |memory|;
      case CLOCK =>
        k, ref', probes, scan := ClockVictim(memory, ref);
        ScanGiven(memory, ref, ref', scan, k);
        CreditWithout(memory, ref', k);
        assert memory[k] !in Without(memory, k);
        CreditIgnores(Without(memory, k), ref', ref' - {memory[k]});
        ref' := ref' - {memory[k]};
      case OPT => k := OptVictim(trace, memory, from);
      case UNOPT => k := UnoptVictim(trace, memory, from);
    }
  }

  /** Page n has one more, at most clockbits, or 1 if it has no count yet. */
  predicate Raised(ref: map<int, int>, n: int, clockbits: int, ref': map<int, int>) {
    ref' == ref[n := if n !in ref then 1 else if clockbits < ref[n] + 1 then clockbits else ref[n] + 1]
  }

  /** The reference-count update that ends every access, saturating at clockbits. */
  method Refer(ref: map<int, int>, n: int, clockbits: int) returns (ref': map<int, int>)
    ensures ref'.Keys == ref.Keys + {n}
    ensures Raised(ref, n, clockbits, ref')
    ensures n in ref ==> Positive(ref'[n]) <= Positive(ref[n]) + 1
  {
    if n !in ref {
      ref' := ref[n := 1];
    } else {
      ref' := ref[n := ref[n] + 1];
      if ref'[n] > clockbits {
        ref' := ref'[n := clockbits];
      }
    }
  }

  lemma RunExtend(policy: Policy, trace: seq<int>, frames: int, lists: seq<seq<int>>, after: seq<int>)
    requires Run(policy, trace, frames, lists) && |lists| <= |trace|
    requires Step(policy, trace, |lists| - 1, frames, lists[|lists| - 1], after)
    ensures Run(policy, trace, frames, lists + [after])
    ensures Misses(trace, lists + [after], |lists|)
         == Misses(trace, lists, |lists| - 1) + (if trace[|lists| - 1] in lists[|lists| - 1] then 0 else 1)
  {
    MissesPrefix(trace, lists, lists + [after], |lists| - 1);
    forall i | 0 <= i < |lists| ensures StepAt(policy, trace, frames, lists + [after], i) {
      if i < |lists| - 1 {
        assert StepAt(policy, trace, frames, lists, i);
      }
    }
  }

  /** Every resident page has a reference count; under CLOCK no other page does. */
  predicate Tracked(policy: Policy, memory: seq<int>, ref: map<int, int>) {
    (forall p :: p in memory ==> p in ref) &&
    (policy.CLOCK? ==> forall p :: p in ref ==> p in memory)
  }

  /** How an access counts: the page accessed has one more, at most clockbits, or 1 if it has none yet; an eviction
      under CLOCK costs the pages their probes; and no other count changes. */
  ghost predicate Counted(policy: Policy, page: int, full: bool, clockbits: int, memory: seq<int>, memory': seq<int>,
                          ref: map<int, int>, ref': map<int, int>, scan: seq<int>) {
    if page in memory || !policy.CLOCK? || !full then
      scan == [] && (page in memory ==> page in ref) && Raised(ref, page, clockbits, ref')
    else
      scan != [] && page in ref' && ref'[page] == 1 && Scanned(memory, ref, ref' - {page}, scan, scan[|scan| - 1])
      && forall p :: p in memory' <==> p == page || (p in memory && p != scan[|scan| - 1])
  }

  /** What a fetch does, its page counted, if there is room. */
  lemma Fetches(policy: Policy, trace: seq<int>, i: nat, cachesize: int, clockbits: int, memory: seq<int>,
                ref: map<int, int>, ref': map<int, int>)
    requires i < |trace| && |memory| != cachesize && Distinct(memory) && trace[i] !in memory
    requires Tracked(policy, memory, ref) && Raised(ref, trace[i], clockbits, ref')
    ensures var memory' := memory + [trace[i]];
      Step(policy, trace, i, cachesize, memory, memory') && Tracked(policy, memory', ref')
      && (policy.CLOCK? ==> Credit(memory', ref') <= Credit(memory, ref) + 2)
      && Counted(policy, trace[i], |memory| == cachesize, clockbits, memory, memory', ref, ref', [])
  {
    if policy.CLOCK? {
      CreditOfFetch(memory, ref, trace[i]);
    }
  }

  /** What a fetch does, its page counted, after an eviction. */
  lemma Replaces(policy: Policy, trace: seq<int>, i: nat, cachesize: int, clockbits: int, memory: seq<int>,
                 ref: map<int, int>, k: nat, was: map<int, int>, spent: nat, scan: seq<int>, ref': map<int, int>)
    requires i < |trace| && |memory| == cachesize && Distinct(memory) && trace[i] !in memory
    requires Tracked(policy, memory, ref) && k < |memory| && MayEvict(policy, trace, i + 1, memory, k)
    requires forall p :: p in Without(memory, k) ==> p in was
    requires policy.CLOCK? ==> was.Keys == ref.Keys - {memory[k]}
    requires policy.CLOCK? ==> Credit(Without(memory, k), was) + spent == Credit(memory, ref) + 1
    requires if policy.CLOCK? then Scanned(memory, ref, was, scan, memory[k]) else scan == [] && was == ref
    requires Raised(was, trace[i], clockbits, ref')
    ensures var memory' := Without(memory, k) + [trace[i]];
      Step(policy, trace, i, cachesize, memory, memory') && Tracked(policy, memory', ref')
      && (policy.CLOCK? ==> Credit(memory', ref') + spent <= Credit(memory, ref) + 2)
      && Counted(policy, trace[i], |memory| == cachesize, clockbits, memory, memory', ref, ref', scan)
  {
    var n := trace[i];
    Leaves(memory, k);
    if policy.CLOCK? {
      CreditOfFetch(Without(memory, k), was, n);
      assert ref' - {n} == was;
    }
  }

  /** The part of an access that fetches the page. */
  method Miss(policy: Policy, trace: seq<int>, i: nat, cachesize: int, clockbits: int, memory: seq<int>,
              ref: map<int, int>)
    returns (memory': seq<int>, ref': map<int, int>, spent: nat, ghost scan: seq<int>)
    requires i < |trace| && cachesize != 0 && Distinct(memory) && trace[i] !in memory
    requires Tracked(policy, memory, ref)
    ensures Step(policy, trace, i, cachesize, memory, memory')
    ensures Tracked(policy, memory', ref')
    ensures policy.CLOCK? ==> Credit(memory', ref') + spent <= Credit(memory, ref) + 2
    ensures !policy.CLOCK? ==> spent == 0
    ensures |scan| == spent
    ensures Counted(policy, trace[i], |memory| == cachesize, clockbits, memory, memory', ref, ref', scan)
  {
    memory', ref', spent, scan := memory, ref, 0, [];
    var k := 0;
    if |memory| == cachesize {
      k, ref', spent, scan := Evict(policy, trace, i + 1, memory, ref);
      memory' := Without(memory, k);
    }
    ghost var was := ref';
    ref' := Refer(ref', trace[i], clockbits);
    if |memory| == cachesize {
      Replaces(policy, trace, i, cachesize, clockbits, memory, ref, k, was, spent, scan, ref');
    } else {
      Fetches(policy, trace, i, cachesize, clockbits, memory, ref, ref');
    }
    memory' := memory' + [trace[i]];
  }

  /** One turn of the trace loop. */
  method Access(policy: Policy, trace: seq<int>, i: nat, cachesize: int, clockbits: int, memory: seq<int>,
                ref: map<int, int>)
    returns (memory': seq<int>, ref': map<int, int>, spent: nat, ghost scan: seq<int>)
    requires i < |trace| && cachesize != 0 && Distinct(memory)
    requires Tracked(policy, memory, ref)
    ensures Step(policy, trace, i, cachesize, memory, memory')
    ensures Tracked(policy, memory', ref')
    ensures policy.CLOCK? ==>
      Credit(memory', ref') + spent <= Credit(memory, ref) + (if trace[i] in memory then 1 else 2)
    ensures !policy.CLOCK? ==> spent == 0
    ensures |scan| == spent
    ensures Counted(policy, trace[i], |memory| == cachesize, clockbits, memory, memory', ref, ref', scan)
  {
    var n := trace[i];
    memory', ref', spent, scan := memory, ref, 0, [];
    if n in memory {
      if policy.LRU? || policy.MRU? {
        var k := IndexOf(memory, n);
        memory' := Without(memory, k) + [n];
      }
      ref' := Refer(ref', n, clockbits);
      if policy.CLOCK? {
        CreditOfAccess(memory, ref, n, ref'[n]);
      }
    } else {
      memory', ref', spent, scan := Miss(policy, trace, i, cachesize, clockbits, memory, ref);
    }
  }

  lemma Leaves(memory: seq<int>, k: nat)
    requires Distinct(memory) && k < |memory|
    ensures forall p :: p in Without(memory, k) <==> p in memory && p != memory[k]
  {
    forall p | p in memory && p != memory[k] ensures p in Without(memory, k) {
      var j :| 0 <= j < |memory| && memory[j] == p;
      assert Without(memory, k)[if j < k then j else j - 1] == p;
    }
  }

  ghost predicate CountedAt(policy: Policy, trace: seq<int>, cachesize: int, clockbits: int, lists: seq<seq<int>>,
                            refs: seq<map<int, int>>, scans: seq<seq<int>>, i: nat)
    requires i < |trace| && i + 1 < |lists| && i + 1 < |refs| && i < |scans|
  {
    Counted(policy, trace[i], |lists[i]| == cachesize, clockbits, lists[i], lists[i + 1], refs[i], refs[i + 1],
            scans[i])
  }

  /** The counts before the trace and after each access, and what is probed in each. */
  ghost predicate Counts(policy: Policy, trace: seq<int>, cachesize: int, clockbits: int, lists: seq<seq<int>>,
                         refs: seq<map<int, int>>, scans: seq<seq<int>>) {
    |scans| <= |trace| && |lists| == |refs| == |scans| + 1 && refs[0] == map[]
    && forall i :: 0 <= i < |scans| ==> CountedAt(policy, trace, cachesize, clockbits, lists, refs, scans, i)
  }

  ghost function Probes(scans: seq<seq<int>>): nat {
    if scans == [] then 0 else Probes(scans[..|scans| - 1]) + |scans[|scans| - 1]|
  }

  lemma CountsExtend(policy: Policy, trace: seq<int>, cachesize: int, clockbits: int, lists: seq<seq<int>>,
                     refs: seq<map<int, int>>, scans: seq<seq<int>>, list: seq<int>, ref: map<int, int>, scan: seq<int>)
    requires Counts(policy, trace, cachesize, clockbits, lists, refs, scans) && |scans| < |trace|
    requires var i := |scans|;
      Counted(policy, trace[i], |lists[i]| == cachesize, clockbits, lists[i], list, refs[i], ref, scan)
    ensures Counts(policy, trace, cachesize, clockbits, lists + [list], refs + [ref], scans + [scan])
    ensures Probes(scans + [scan]) == Probes(scans) + |scan|
  {
    assert (scans + [scan])[..|scans|] == scans;
    forall i: nat | i <= |scans|
      ensures CountedAt(policy, trace, cachesize, clockbits, lists + [list], refs + [ref], scans + [scan], i)
    {
      if i < |scans| {
        assert CountedAt(policy, trace, cachesize, clockbits, lists, refs, scans, i);
      }
    }
  }

  /** Under CLOCK the probes and the credit left are paid for by hits and misses; no other policy probes. */
  ghost predicate Paid(policy: Policy, memory: seq<int>, ref: map<int, int>, hits: int, miss: int, probes: int)
    requires forall p :: p in memory ==> p in ref
  {
    if policy.CLOCK? then probes + Credit(memory, ref) <= hits + 2 * miss else probes == 0
  }

  /** The trace loop.  `lists` is the resident list before the trace and after each
      access; `probes` counts CLOCK's random probes over the whole trace, which
      the last clause bounds although the choices are arbitrary. */
  method Simulate(policy: Policy, trace: seq<int>, cachesize: int, clockbits: int)
    returns (hits: nat, miss: nat, lists: seq<seq<int>>, probes: nat, ghost refs: seq<map<int, int>>,
             ghost scans: seq<seq<int>>)
    requires cachesize != 0
    ensures |lists| == |trace| + 1 && Run(policy, trace, cachesize, lists)
    ensures hits + miss == |trace| && miss == Misses(trace, lists, |trace|)
    ensures probes == Probes(scans) <= hits + 2 * miss
    ensures Counts(policy, trace, cachesize, clockbits, lists, refs, scans)
  {
    var memory: seq<int>, ref: map<int, int> := [], map[];
    hits, miss, lists, probes, refs, scans := 0, 0, [[]], 0, [map[]], [];
    var addrIndex := 0;
    while addrIndex < |trace|
      invariant addrIndex <= |trace| && |lists| == |refs| == |scans| + 1 == addrIndex + 1
      invariant memory == lists[addrIndex] && ref == refs[addrIndex] && Tracked(policy, memory, ref)
      invariant Run(policy, trace, cachesize, lists)
      invariant Counts(policy, trace, cachesize, clockbits, lists, refs, scans)
      invariant hits + miss == addrIndex && miss == Misses(trace, lists, addrIndex) && probes == Probes(scans)
      invariant Paid(policy, memory, ref, hits, miss, probes)
    {
      RunKeepsShape(policy, trace, cachesize, lists, addrIndex);
      var hit := trace[addrIndex] in memory;
      var memory', ref', spent;
      ghost var scan;
      memory', ref', spent, scan := Access(policy, trace, addrIndex, cachesize, clockbits, memory, ref);
      RunExtend(policy, trace, cachesize, lists, memory');
      CountsExtend(policy, trace, cachesize, clockbits, lists, refs, scans, memory', ref', scan);
      if hit {
        hits := hits + 1;
      } else {
        miss := miss + 1;
      }
      memory, ref, probes := memory', ref', probes + spent;
      lists, refs, scans := lists + [memory], refs + [ref], scans + [scan];
      addrIndex := addrIndex + 1;
    }
  }

  lemma {:induction false} MissesPrefix(trace: seq<int>, lists: seq<seq<int>>, more: seq<seq<int>>, n: nat)
    requires n <= |trace| && n <= |lists| && lists <= more
    ensures Misses(trace, lists, n) == Misses(trace, more, n)
  {
    if n > 0 {
      MissesPrefix(trace, lists, more, n - 1);
    }
  }

  // ----- Optimality of OPT

  /** Any schedule at all that fetches pages on demand: an access may drop any
      pages, adds at most the accessed one, and leaves it resident. */
  ghost predicate Serves(trace: seq<int>, frames: int, sets: seq<set<int>>)
  {
    |sets| == |trace| + 1 && sets[0] == {} &&
    forall i :: 0 <= i < |trace| ==> FetchAt(trace, frames, sets, i)
  }

  ghost predicate FetchAt(trace: seq<int>, frames: int, sets: seq<set<int>>, i: nat)
    requires i < |trace| && i + 1 < |sets|
  {
    Fetch(trace[i], frames, sets[i], sets[i + 1])
  }

  ghost predicate Fetch(page: int, frames: int, before: set<int>, after: set<int>) {
    page in after && after <= before + {page} && (0 < frames ==> |after| <= frames)
  }

  ghost function Faults(trace: seq<int>, sets: seq<set<int>>, n: nat): nat
    requires n <= |trace| && n <= |sets|
  {
    if n == 0 then 0
    else Faults(trace, sets, n - 1) + (if trace[n - 1] in sets[n - 1] then 0 else 1)
  }

  ghost function Elems(s: seq<int>): set<int> {
    set x | x in s
  }

  /** The pages of `pages` whose next use at or after `from` comes before time t. */
  ghost function Soon(trace: seq<int>, pages: set<int>, from: nat, t: int): set<int>
    requires from <= |trace|
  {
    set p | p in pages && NextUse(trace, p, from) < t
  }

  /** `a` holds, for every deadline, at least as many pages needed by then as `b`
      does, up to the number of faults `lead` by which `a` is ahead. */
  ghost predicate Ahead(trace: seq<int>, from: nat, a: set<int>, b: set<int>, lead: int)
    requires from <= |trace|
  {
    forall t :: AheadFor(trace, from, a, b, lead, t)
  }

  ghost predicate AheadFor(trace: seq<int>, from: nat, a: set<int>, b: set<int>, lead: int, t: int)
    requires from <= |trace|
  {
    |Soon(trace, b, from, t)| <= |Soon(trace, a, from, t)| + lead
  }

  lemma CardSubset(a: set<int>, b: set<int>)
    requires a <= b
    ensures |a| <= |b|
  {
    assert b == a + (b - a);
  }

  /** What an access leaves of the pages needed before t > i + 1: the accessed page
      goes, the others keep their next use. */
  lemma SoonAfter(trace: seq<int>, pages: set<int>, i: nat, t: int)
    requires i < |trace| && i + 1 < t
    ensures |Soon(trace, pages, i, t)|
         == |Soon(trace, pages - {trace[i]}, i + 1, t)| + (if trace[i] in pages then 1 else 0)
  {
    var n := trace[i];
    var rest := Soon(trace, pages - {n}, i + 1, t);
    assert NextUse(trace, n, i) == i;
    assert forall p :: p != n ==> NextUse(trace, p, i) == NextUse(trace, p, i + 1);
    if n in pages {
      assert Soon(trace, pages, i, t) == rest + {n};
    } else {
      assert Soon(trace, pages, i, t) == rest;
    }
  }

  lemma SoonWith(trace: seq<int>, pages: set<int>, i: nat, t: int)
    requires i < |trace| && trace[i] in pages
    ensures |Soon(trace, pages, i + 1, t)|
         == |Soon(trace, pages - {trace[i]}, i + 1, t)| + (if NextUse(trace, trace[i], i + 1) < t then 1 else 0)
  {
    var n := trace[i];
    var rest := Soon(trace, pages - {n}, i + 1, t);
    if NextUse(trace, n, i + 1) < t {
      assert Soon(trace, pages, i + 1, t) == rest + {n};
    } else {
      assert Soon(trace, pages, i + 1, t) == rest;
    }
  }

  /** The lead stays non-negative: the deadline right after the access counts only
      the accessed page. */
  lemma LeadNonNegative(trace: seq<int>, i: nat, a: set<int>, b: set<int>, lead: int)
    requires i < |trace| && Ahead(trace, i, a, b, lead)
    ensures 0 <= lead + (if trace[i] in b then 0 else 1) - (if trace[i] in a then 0 else 1)
  {
    var n := trace[i];
    assert AheadFor(trace, i, a, b, lead, i + 1);
    assert forall p :: NextUse(trace, p, i) < i + 1 <==> p == n;
    assert Soon(trace, a, i, i + 1) == if n in a then {n} else {};
    assert Soon(trace, b, i, i + 1) == if n in b then {n} else {};
  }

  /** The heart of the optimality proof: one access keeps `Ahead`, for one deadline.
      `u` is the page that `a` evicts; evicting the farthest page can only cost a
      deadline that every resident page of `a` meets. */
  lemma AheadAt(trace: seq<int>, i: nat, frames: int, a: set<int>, a': set<int>, u: int, b: set<int>, b': set<int>,
                lead: int, t: int)
    requires i < |trace| && Ahead(trace, i, a, b, lead)
    requires var n := trace[i]; n in a' && n in b' && b' <= b + {n}
    requires trace[i] in a ==> a' == a
    requires trace[i] !in a ==> u in a && a' == a - {u} + {trace[i]}
    requires trace[i] !in a ==> |a| == frames && |b'| <= frames
    requires trace[i] !in a ==> forall p :: p in a ==> NextUse(trace, p, i + 1) <= NextUse(trace, u, i + 1)
    ensures AheadFor(trace, i + 1, a', b',
                     lead + (if trace[i] in b then 0 else 1) - (if trace[i] in a then 0 else 1), t)
  {
    var n := trace[i];
    LeadNonNegative(trace, i, a, b, lead);
    if t <= i + 1 {
      assert Soon(trace, b', i + 1, t) == {};
    } else {
      assert AheadFor(trace, i, a, b, lead, t);
      SoonAfter(trace, a, i, t);
      SoonAfter(trace, b, i, t);
      SoonWith(trace, a', i, t);
      SoonWith(trace, b', i, t);
      CardSubset(Soon(trace, b' - {n}, i + 1, t), Soon(trace, b - {n}, i + 1, t));
      if n !in a {
        if NextUse(trace, u, i + 1) < t {
          EvictedSoon(trace, i, a, a', u, b', t);
        } else {
          assert Soon(trace, a' - {n}, i + 1, t) == Soon(trace, a - {n}, i + 1, t);
        }
      }
    }
  }

  /** If even the evicted page is needed before t, so is all of `a`. */
  lemma EvictedSoon(trace: seq<int>, i: nat, a: set<int>, a': set<int>, u: int, b': set<int>, t: int)
    requires i < |trace| && trace[i] !in a && u in a && a' == a - {u} + {trace[i]}
    requires trace[i] in b' && |b'| <= |a|
    requires NextUse(trace, u, i + 1) < t
    requires forall p :: p in a ==> NextUse(trace, p, i + 1) <= NextUse(trace, u, i + 1)
    ensures |Soon(trace, b' - {trace[i]}, i + 1, t)| <= |Soon(trace, a' - {trace[i]}, i + 1, t)|
  {
    assert Soon(trace, a' - {trace[i]}, i + 1, t) == a - {u};
    CardSubset(Soon(trace, b' - {trace[i]}, i + 1, t), b' - {trace[i]});
  }

  /** Before the cache fills up a demand-paging run holds every page it has seen. */
  ghost predicate Covers(frames: int, a: set<int>, b: set<int>) {
    |a| == frames || b <= a
  }

  /** A miss that still finds a free frame: the schedule missed too. */
  lemma AheadFill(trace: seq<int>, i: nat, a: set<int>, b: set<int>, b': set<int>, lead: int)
    requires i < |trace| && trace[i] !in a && b <= a && b' <= b + {trace[i]}
    requires Ahead(trace, i, a, b, lead)
    ensures Ahead(trace, i + 1, a + {trace[i]}, b', lead)
  {
    assert AheadFor(trace, i, a, b, lead, 0);
    assert Soon(trace, a, i, 0) == Soon(trace, b, i, 0) == {};
    var a', next := a + {trace[i]}, i + 1;
    forall t ensures AheadFor(trace, next, a', b', lead, t) {
      CardSubset(Soon(trace, b', next, t), Soon(trace, a', next, t));
    }
  }

  /** OPT's step as sets, `u` being the evicted page. */
  ghost predicate OptSets(trace: seq<int>, i: nat, frames: int, a: set<int>, a': set<int>, u: int)
    requires i < |trace|
  {
    var n := trace[i];
    if n in a then a' == a
    else if |a| != frames then a' == a + {n}
    else u in a && a' == a - {u} + {n}
         && forall p :: p in a ==> NextUse(trace, p, i + 1) <= NextUse(trace, u, i + 1)
  }

  lemma OptStepSets(trace: seq<int>, i: nat, frames: int, before: seq<int>, after: seq<int>) returns (u: int)
    requires i < |trace| && Distinct(before)
    requires Step(OPT, trace, i, frames, before, after)
    ensures OptSets(trace, i, frames, Elems(before), Elems(after), u)
  {
    var page := trace[i];
    u := page;
    DistinctCard(before);
    if page !in before && |before| == frames {
      var k :| 0 <= k < |before| && MayEvict(OPT, trace, i + 1, before, k) && after == Without(before, k) + [page];
      WithoutElems(before, k);
      u := before[k];
      assert Elems(after) == Elems(before) - {u} + {page};
    } else if page !in before {
      assert Elems(after) == Elems(before) + {page};
    }
  }

  lemma WithoutElems(s: seq<int>, k: nat)
    requires Distinct(s) && k < |s|
    ensures Elems(Without(s, k)) == Elems(s) - {s[k]}
  {
    forall x | x in s && x != s[k] ensures x in Without(s, k) {
      var j :| 0 <= j < |s| && s[j] == x;
      assert x == if j < k then Without(s, k)[j] else Without(s, k)[j - 1];
    }
  }

  lemma AheadStep(trace: seq<int>, i: nat, frames: int, a: set<int>, a': set<int>, u: int, b: set<int>, b': set<int>,
                  lead: int, lead': int)
    requires i < |trace| && frames != 0 && (0 < frames ==> |a'| <= frames)
    requires lead' == lead + (if trace[i] in b then 0 else 1) - (if trace[i] in a then 0 else 1)
    requires OptSets(trace, i, frames, a, a', u)
    requires Fetch(trace[i], frames, b, b')
    requires Ahead(trace, i, a, b, lead) && Covers(frames, a, b)
    ensures Covers(frames, a', b') && Ahead(trace, i + 1, a', b', lead')
  {
    if trace[i] !in a && |a| != frames {
      AheadFill(trace, i, a, b, b', lead);
    } else {
      var next := i + 1;
      forall t ensures AheadFor(trace, next, a', b', lead', t) {
        AheadAt(trace, i, frames, a, a', u, b, b', lead, t);
      }
    }
  }

  lemma {:induction false} DistinctCard(s: seq<int>)
    requires Distinct(s)
    ensures |Elems(s)| == |s|
  {
    if s != [] {
      var init := s[..|s| - 1];
      DistinctCard(init);
      assert s == init + [s[|s| - 1]];
      assert Elems(s) == Elems(init) + {s[|s| - 1]};
    }
  }

  /** The same for the lists of a run. */
  lemma AheadNext(trace: seq<int>, i: nat, frames: int, before: seq<int>, after: seq<int>, b: set<int>, b': set<int>,
                  lead: int, lead': int)
    requires i < |trace| && frames != 0 && Distinct(before) && Distinct(after) && (0 < frames ==> |after| <= frames)
    requires Step(OPT, trace, i, frames, before, after) && Fetch(trace[i], frames, b, b')
    requires Ahead(trace, i, Elems(before), b, lead) && Covers(frames, Elems(before), b)
    requires lead' == lead + (if trace[i] in b then 0 else 1) - (if trace[i] in before then 0 else 1)
    ensures Covers(frames, Elems(after), b') && Ahead(trace, i + 1, Elems(after), b', lead')
  {
    DistinctCard(after);
    var u := OptStepSets(trace, i, frames, before, after);
    AheadStep(trace, i, frames, Elems(before), Elems(after), u, b, b', lead, lead');
  }

  /** Schedules that serve the trace in no more frames than OPT never get ahead of it. */
  lemma {:induction false} OptStaysAhead(trace: seq<int>, frames: int, lists: seq<seq<int>>, frames': int,
                                         sets: seq<set<int>>, i: nat)
    requires frames != 0 && (0 < frames ==> 0 < frames' <= frames)
    requires |lists| == |trace| + 1 && Run(OPT, trace, frames, lists)
    requires Serves(trace, frames', sets) && i <= |trace|
    ensures Ahead(trace, i, Elems(lists[i]), sets[i], Faults(trace, sets, i) - Misses(trace, lists, i))
    ensures Covers(frames, Elems(lists[i]), sets[i])
  {
    if i > 0 {
      OptStaysAhead(trace, frames, lists, frames', sets, i - 1);
      RunKeepsShape(OPT, trace, frames, lists, i - 1);
      RunKeepsShape(OPT, trace, frames, lists, i);
      assert StepAt(OPT, trace, frames, lists, i - 1);
      assert FetchAt(trace, frames', sets, i - 1);
      AheadNext(trace, i - 1, frames, lists[i - 1], lists[i], sets[i - 1], sets[i],
                Faults(trace, sets, i - 1) - Misses(trace, lists, i - 1),
                Faults(trace, sets, i) - Misses(trace, lists, i));
    }
  }

  /** Belady's theorem: OPT misses no more than any schedule with at most as many frames. */
  lemma OptIsOptimal(trace: seq<int>, frames: int, lists: seq<seq<int>>, frames': int, sets: seq<set<int>>)
    requires frames != 0 && (0 < frames ==> 0 < frames' <= frames)
    requires |lists| == |trace| + 1 && Run(OPT, trace, frames, lists)
    requires Serves(trace, frames', sets)
    ensures Misses(trace, lists, |trace|) <= Faults(trace, sets, |trace|)
  {
    OptStaysAhead(trace, frames, lists, frames', sets, |trace|);
    var n := |trace|;
    assert AheadFor(trace, n, Elems(lists[n]), sets[n], Faults(trace, sets, n) - Misses(trace, lists, n), 0);
    assert Soon(trace, Elems(lists[n]), n, 0) == Soon(trace, sets[n], n, 0) == {};
  }

  /** Every policy's run is such a schedule, with the same misses. */
  lemma {:induction false} RunServes(policy: Policy, trace: seq<int>, frames: int, lists: seq<seq<int>>, n: nat)
    requires frames != 0 && |lists| == |trace| + 1 && Run(policy, trace, frames, lists)
    requires n <= |trace|
    ensures var sets := seq(|lists|, i requires 0 <= i < |lists| => Elems(lists[i]));
      Serves(trace, frames, sets) && Faults(trace, sets, n) == Misses(trace, lists, n)
  {
    var sets := seq(|lists|, i requires 0 <= i < |lists| => Elems(lists[i]));
    forall i | 0 <= i < |trace| ensures FetchAt(trace, frames, sets, i) {
      assert StepAt(policy, trace, frames, lists, i);
      RunKeepsShape(policy, trace, frames, lists, i + 1);
      DistinctCard(lists[i + 1]);
    }
    if n > 0 {
      RunServes(policy, trace, frames, lists, n - 1);
    }
  }

  /** None of the simulator's policies beats OPT, not even OPT itself with fewer frames. */
  lemma OptBeatsEveryPolicy(policy: Policy, trace: seq<int>, frames: int, opt: seq<seq<int>>, frames': int,
                            lists: seq<seq<int>>)
    requires frames != 0 && frames' != 0 && (0 < frames ==> 0 < frames' <= frames)
    requires |opt| == |trace| + 1 && Run(OPT, trace, frames, opt)
    requires |lists| == |trace| + 1 && Run(policy, trace, frames', lists)
    ensures Misses(trace, opt, |trace|) <= Misses(trace, lists, |trace|)
  {
    RunServes(policy, trace, frames', lists, |trace|);
    OptIsOptimal(trace, frames, opt, frames', seq(|lists|, i requires 0 <= i < |lists| => Elems(lists[i])));
  }

  // ----- Inclusion of LRU

  /** The first list is the tail of the second, and falls short of it only when full. */
  ghost predicate TailOf(frames: int, small: seq<int>, large: seq<int>) {
    |small| <= |large| && large[|large| - |small|..] == small &&
    (|small| == |large| || |small| == frames)
  }

  lemma TailIntro(frames: int, older: seq<int>, small: seq<int>)
    requires older == [] || |small| == frames
    ensures TailOf(frames, small, older + small)
  {
  }

  function Find(s: seq<int>, x: int): (k: nat)
    requires x in s
    ensures k < |s| && s[k] == x
  {
    if s[0] == x then 0 else 1 + Find(s[1..], x)
  }

  /** LRU's step as a function of the list. */
  function LruNext(before: seq<int>, page: int, frames: int): seq<int> {
    if page in before then Without(before, Find(before, page)) + [page]
    else if |before| == frames && frames > 0 then before[1..] + [page]
    else before + [page]
  }

  lemma LruStepIs(trace: seq<int>, i: nat, frames: int, before: seq<int>, after: seq<int>)
    requires i < |trace| && frames != 0 && Distinct(before)
    requires Step(LRU, trace, i, frames, before, after)
    ensures after == LruNext(before, trace[i], frames)
  {
    if trace[i] !in before && |before| == frames {
      assert Without(before, 0) == before[1..];
    }
  }

  lemma FindUnique(s: seq<int>, k: nat)
    requires Distinct(s) && k < |s|
    ensures Find(s, s[k]) == k
  {
  }

  lemma HitInTail(page: int, frames: int, older: seq<int>, small: seq<int>)
    requires Distinct(older + small) && (older == [] || |small| == frames) && page in small
    ensures page in older + small
    ensures TailOf(frames, LruNext(small, page, frames), LruNext(older + small, page, frames))
  {
    var large, k := older + small, Find(small, page);
    var i := |older| + k;
    assert large[i] == page;
    FindUnique(large, i);
    assert LruNext(large, page, frames) == Without(large, i) + [page];
    WithoutConcat(older, small, k, page);
    TailIntro(frames, older, Without(small, k) + [page]);
  }

  lemma WithoutConcat(older: seq<int>, small: seq<int>, k: nat, page: int)
    requires k < |small|
    ensures Without(older + small, |older| + k) + [page] == older + (Without(small, k) + [page])
  {
  }

  lemma HitInOlder(page: int, frames: int, older: seq<int>, small: seq<int>)
    requires |small| == frames > 0 && page in older && page !in small
    ensures page in older + small
    ensures TailOf(frames, LruNext(small, page, frames), LruNext(older + small, page, frames))
  {
    var large := older + small;
    var k := Find(large, page);
    assert k < |older| by {
      assert forall j :: |older| <= j < |large| ==> large[j] in small;
    }
    assert Without(large, k) + [page] == (Without(older, k) + [small[0]]) + (small[1..] + [page]);
    TailIntro(frames, Without(older, k) + [small[0]], small[1..] + [page]);
  }

  lemma MissInBoth(page: int, frames: int, frames': int, older: seq<int>, small: seq<int>)
    requires 0 < frames && (frames' < 0 || frames <= frames')
    requires |small| <= frames && (older == [] || |small| == frames)
    requires page !in older + small && page !in small
    ensures TailOf(frames, LruNext(small, page, frames), LruNext(older + small, page, frames'))
  {
    var large := older + small;
    if |small| < frames {
      assert large == small;
      TailIntro(frames, [], small + [page]);
      assert [] + (small + [page]) == small + [page];
    } else {
      var kept := if |large| == frames' then (older + [small[0]])[1..] else older + [small[0]];
      assert LruNext(large, page, frames') == kept + (small[1..] + [page]);
      TailIntro(frames, kept, small[1..] + [page]);
    }
  }

  lemma InclusionStep(page: int, frames: int, frames': int, small: seq<int>, large: seq<int>)
    requires 0 < frames && (frames' < 0 || frames <= frames')
    requires Distinct(large) && TailOf(frames, small, large) && |small| <= frames
    ensures TailOf(frames, LruNext(small, page, frames), LruNext(large, page, frames'))
    ensures page in small ==> page in large
  {
    var older := large[..|large| - |small|];
    assert older + small == large;
    if page in small {
      HitInTail(page, frames, older, small);
    } else if page in large {
      assert page in older;
      HitInOlder(page, frames, older, small);
    } else {
      MissInBoth(page, frames, frames', older, small);
    }
  }

  /** LRU with fewer frames holds exactly the most recent part of what LRU with more
      (or unlimited) frames holds, after every prefix of every trace. */
  lemma {:induction false} LruInclusion(trace: seq<int>, frames: int, frames': int, small: seq<seq<int>>,
                                        large: seq<seq<int>>, i: nat)
    requires 0 < frames && (frames' < 0 || frames <= frames')
    requires Run(LRU, trace, frames, small) && Run(LRU, trace, frames', large)
    requires i < |small| && i < |large|
    ensures TailOf(frames, small[i], large[i])
    ensures Misses(trace, large, i) <= Misses(trace, small, i)
  {
    if i > 0 {
      LruInclusion(trace, frames, frames', small, large, i - 1);
      RunKeepsShape(LRU, trace, frames, small, i - 1);
      RunKeepsShape(LRU, trace, frames', large, i - 1);
      assert StepAt(LRU, trace, frames, small, i - 1);
      assert StepAt(LRU, trace, frames', large, i - 1);
      LruStepIs(trace, i - 1, frames, small[i - 1], small[i]);
      LruStepIs(trace, i - 1, frames', large[i - 1], large[i]);
      InclusionStep(trace[i - 1], frames, frames', small[i - 1], large[i - 1]);
    }
  }
}
