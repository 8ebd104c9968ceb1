/**
 * What the names of the policies promise (related_info/ostep/ostep6-paging-policy.py): LRU evicts the page whose last
 * use is longest ago, MRU the one used last, and FIFO the one that was fetched first; OPT evicts the page that is
 * needed again last, and UNOPT the one needed first.
 */
module Recency {
  import opened Paging

  /** The last of the first i accesses that was to page p; -1 if there was none. */
  function LastUse(trace: seq<int>, p: int, i: nat): int
    requires i <= |trace|
  {
    if i == 0 then -1 else if trace[i - 1] == p then i - 1 else LastUse(trace, p, i - 1)
  }

  lemma {:induction false} UsedBefore(trace: seq<int>, p: int, i: nat)
    requires i <= |trace|
    ensures -1 <= LastUse(trace, p, i) < i
    ensures LastUse(trace, p, i) >= 0 ==> trace[LastUse(trace, p, i)] == p
    ensures forall t :: LastUse(trace, p, i) < t < i ==> trace[t] != p
  {
    if i > 0 && trace[i - 1] != p {
      UsedBefore(trace, p, i - 1);
    }
  }

  /** The list is in the order of the last uses. */
  ghost predicate InUseOrder(trace: seq<int>, list: seq<int>, i: nat)
    requires i <= |trace|
  {
    forall a, b :: 0 <= a < b < |list| ==> LastUse(trace, list[a], i) < LastUse(trace, list[b], i)
  }

  /** What is left of the list is in order, too. */
  lemma RestInOrder(trace: seq<int>, i: nat, list: seq<int>, k: nat)
    requires i <= |trace| && InUseOrder(trace, list, i) && k < |list|
    ensures InUseOrder(trace, Without(list, k), i)
  {
    var rest := Without(list, k);
    forall a, b | 0 <= a < b < |rest| ensures LastUse(trace, rest[a], i) < LastUse(trace, rest[b], i) {
      assert rest[a] == list[if a < k then a else a + 1] && rest[b] == list[if b < k then b else b + 1];
    }
  }

  /** The page accessed at the end of a list in order. */
  lemma MovedToEnd(trace: seq<int>, i: nat, rest: seq<int>)
    requires i < |trace| && InUseOrder(trace, rest, i) && trace[i] !in rest
    ensures InUseOrder(trace, rest + [trace[i]], i + 1)
  {
    var after := rest + [trace[i]];
    forall a, b | 0 <= a < b < |after| ensures LastUse(trace, after[a], i + 1) < LastUse(trace, after[b], i + 1) {
      assert after[a] == rest[a] && after[a] in rest;
      UsedBefore(trace, after[a], i);
      assert b < |rest| ==> after[b] in rest;
    }
  }

  lemma UseNext(policy: Policy, trace: seq<int>, frames: int, before: seq<int>, after: seq<int>, i: nat)
    requires (policy.LRU? || policy.MRU?) && i < |trace| && Distinct(before) && InUseOrder(trace, before, i)
    requires Step(policy, trace, i, frames, before, after)
    ensures InUseOrder(trace, after, i + 1) && after != [] && after[|after| - 1] == trace[i]
  {
    var page := trace[i];
    if page in before {
      var k :| 0 <= k < |before| && before[k] == page && after == Without(before, k) + [page];
      assert page !in Without(before, k);
      RestInOrder(trace, i, before, k);
      MovedToEnd(trace, i, Without(before, k));
    } else if |before| == frames {
      var k :| 0 <= k < |before| && MayEvict(policy, trace, i + 1, before, k) && after == Without(before, k) + [page];
      RestInOrder(trace, i, before, k);
      MovedToEnd(trace, i, Without(before, k));
    } else {
      MovedToEnd(trace, i, before);
    }
  }

  lemma {:induction false} UseOrder(policy: Policy, trace: seq<int>, frames: int, lists: seq<seq<int>>, i: nat)
    requires (policy.LRU? || policy.MRU?) && frames != 0 && Run(policy, trace, frames, lists) && i < |lists|
    ensures InUseOrder(trace, lists[i], i)
    ensures i > 0 ==> lists[i] != [] && lists[i][|lists[i]| - 1] == trace[i - 1]
  {
    if i > 0 {
      UseOrder(policy, trace, frames, lists, i - 1);
      RunKeepsShape(policy, trace, frames, lists, i - 1);
      assert StepAt(policy, trace, frames, lists, i - 1);
      UseNext(policy, trace, frames, lists[i - 1], lists[i], i - 1);
    }
  }

  /** Access i evicts page v. */
  ghost predicate Evicts(trace: seq<int>, lists: seq<seq<int>>, i: nat, v: int) {
    i + 1 < |lists| <= |trace| + 1 && v in lists[i] && v !in lists[i + 1]
  }

  lemma VictimOf(policy: Policy, trace: seq<int>, frames: int, lists: seq<seq<int>>, i: nat, v: int) returns (k: nat)
    requires frames != 0 && Run(policy, trace, frames, lists) && Evicts(trace, lists, i, v)
    ensures k < |lists[i]| && lists[i][k] == v && MayEvict(policy, trace, i + 1, lists[i], k) && |lists[i]| == frames
  {
    assert StepAt(policy, trace, frames, lists, i);
    var before, after, page := lists[i], lists[i + 1], trace[i];
    k :| 0 <= k < |before| && before[k] == v;
    if page in before {
      Stays(before, after, page, v);
    } else if |before| == frames {
      var m :| 0 <= m < |before| && MayEvict(policy, trace, i + 1, before, m) && after == Without(before, m) + [page];
      OnlyOneLeaves(before, m, page, k);
    } else {
      AllStay(before, page, k);
    }
  }

  lemma OnlyOneLeaves(before: seq<int>, m: nat, page: int, k: nat)
    requires m < |before| && k < |before|
    ensures k != m ==> before[k] in Without(before, m) + [page]
  {
    if k != m {
      assert (Without(before, m) + [page])[if k < m then k else k - 1] == before[k];
    }
  }

  lemma AllStay(before: seq<int>, page: int, k: nat)
    requires k < |before|
    ensures before[k] in before + [page]
  {
    assert (before + [page])[k] == before[k];
  }

  lemma Stays(before: seq<int>, after: seq<int>, page: int, v: int)
    requires v in before && v !in after && page in before
    ensures after != before
    ensures forall k :: 0 <= k < |before| && before[k] == page ==> after != Without(before, k) + [page]
  {
    forall k | 0 <= k < |before| && before[k] == page ensures after != Without(before, k) + [page] {
      var j :| 0 <= j < |before| && before[j] == v;
      var moved := Without(before, k) + [page];
      if j == k {
        assert moved[|moved| - 1] == v;
      } else {
        assert moved[if j < k then j else j - 1] == v;
      }
    }
  }

  /** The victim of LRU was used before any other resident page was last used. */
  lemma LruVictim(trace: seq<int>, frames: int, lists: seq<seq<int>>, i: nat, v: int, q: int)
    requires frames != 0 && Run(LRU, trace, frames, lists) && Evicts(trace, lists, i, v) && q in lists[i] && q != v
    ensures LastUse(trace, v, i) < LastUse(trace, q, i)
  {
    var k := VictimOf(LRU, trace, frames, lists, i, v);
    UseOrder(LRU, trace, frames, lists, i);
  }

  /** The victim of MRU is the page of the access before. */
  lemma MruVictim(trace: seq<int>, frames: int, lists: seq<seq<int>>, i: nat, v: int)
    requires frames != 0 && Run(MRU, trace, frames, lists) && Evicts(trace, lists, i, v)
    ensures i > 0 && v == trace[i - 1]
  {
    var k := VictimOf(MRU, trace, frames, lists, i, v);
    UseOrder(MRU, trace, frames, lists, i);
  }

  // ----- The order of fetches

  /** The access that fetched page p, last before access i; -1 if none did. */
  ghost function FetchTime(trace: seq<int>, lists: seq<seq<int>>, p: int, i: nat): int
    requires i <= |trace| && i <= |lists|
  {
    if i == 0 then -1
    else if trace[i - 1] == p && p !in lists[i - 1] then i - 1
    else FetchTime(trace, lists, p, i - 1)
  }

  ghost predicate InFetchOrder(trace: seq<int>, lists: seq<seq<int>>, i: nat)
    requires i <= |trace| && i < |lists|
  {
    var list := lists[i];
    (forall a :: 0 <= a < |list| ==> FetchTime(trace, lists, list[a], i) < i)
    && forall a, b :: 0 <= a < b < |list| ==> FetchTime(trace, lists, list[a], i) < FetchTime(trace, lists, list[b], i)
  }

  lemma {:induction false} FetchOrder(trace: seq<int>, frames: int, lists: seq<seq<int>>, i: nat)
    requires frames != 0 && Run(FIFO, trace, frames, lists) && i < |lists|
    ensures InFetchOrder(trace, lists, i)
  {
    if i > 0 {
      FetchOrder(trace, frames, lists, i - 1);
      assert StepAt(FIFO, trace, frames, lists, i - 1);
      FetchNext(trace, frames, lists, i - 1);
    }
  }

  lemma FetchNext(trace: seq<int>, frames: int, lists: seq<seq<int>>, i: nat)
    requires i < |trace| && i + 1 < |lists| && InFetchOrder(trace, lists, i)
    requires Step(FIFO, trace, i, frames, lists[i], lists[i + 1])
    ensures InFetchOrder(trace, lists, i + 1)
  {
    var before, after, page := lists[i], lists[i + 1], trace[i];
    if page in before {
      assert forall a :: 0 <= a < |before| ==> before[a] in before;
    } else {
      var drop := if |before| == frames then 1 else 0;
      assert |before| == frames ==> after == Without(before, 0) + [page];
      assert forall a :: 0 <= a < |after| - 1 ==> after[a] == before[a + drop] && after[a] in before;
    }
  }

  /** The victim of FIFO was fetched before any other resident page. */
  lemma FifoVictim(trace: seq<int>, frames: int, lists: seq<seq<int>>, i: nat, v: int, q: int)
    requires frames != 0 && Run(FIFO, trace, frames, lists) && Evicts(trace, lists, i, v) && q in lists[i] && q != v
    ensures FetchTime(trace, lists, v, i) < FetchTime(trace, lists, q, i)
  {
    var k := VictimOf(FIFO, trace, frames, lists, i, v);
    FetchOrder(trace, frames, lists, i);
  }

  /** Before it is accessed again every other page that was resident is. */
  lemma OptChoice(trace: seq<int>, frames: int, lists: seq<seq<int>>, i: nat, v: int, q: int)
    requires frames != 0 && Run(OPT, trace, frames, lists) && Evicts(trace, lists, i, v) && q in lists[i] && q != v
    ensures forall t :: i < t < |trace| && trace[t] == v ==> exists s :: i < s < t && trace[s] == q
    ensures (forall t :: i < t < |trace| ==> trace[t] != v && trace[t] != q) ==>
      exists j, k :: 0 <= j < k < |lists[i]| && lists[i][j] == q && lists[i][k] == v
  {
    var k := VictimOf(OPT, trace, frames, lists, i, v);
    var j :| 0 <= j < |lists[i]| && lists[i][j] == q;
    var d, best := NextUse(trace, q, i + 1), NextUse(trace, v, i + 1);
    assert d < best || (d == best && j <= k);
    assert d < |trace| ==> trace[d] == q && d != best;
  }

  /** Before any other page that was resident is accessed again, it is. */
  lemma UnoptChoice(trace: seq<int>, frames: int, lists: seq<seq<int>>, i: nat, v: int, q: int)
    requires frames != 0 && Run(UNOPT, trace, frames, lists) && Evicts(trace, lists, i, v) && q in lists[i] && q != v
    ensures forall t :: i < t < |trace| && trace[t] == q ==> exists s :: i < s < t && trace[s] == v
    ensures (forall t :: i < t < |trace| ==> trace[t] != v && trace[t] != q) ==>
      exists j, k :: 0 <= k < j < |lists[i]| && lists[i][j] == q && lists[i][k] == v
  {
    var k := VictimOf(UNOPT, trace, frames, lists, i, v);
    var j :| 0 <= j < |lists[i]| && lists[i][j] == q;
    var d, best := NextUse(trace, q, i + 1), NextUse(trace, v, i + 1);
    assert best < d || (best == d && k <= j);
    assert d < |trace| ==> trace[d] == q && d != best;
  }
}
