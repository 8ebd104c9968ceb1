/**
 * Belady's anomaly: when FIFO replacement misses more often with more frames.
 *
 * The main theorem: for two numbers of frames there is a trace with the anomaly if and only if the larger
 * one is less than twice the smaller one minus one.
 */
module Fifo {
  import opened Paging

  // ----- FIFO's step as a function

  function FifoNext(before: seq<int>, page: int, cap: nat): seq<int> {
    if page in before then before
    else if |before| == cap && cap > 0 then before[1..] + [page]
    else before + [page]
  }

  /** A run with these frames, or a negative number of them, is one with cap frames as long as cap is not reached. */
  lemma FifoStepIs(trace: seq<int>, i: nat, frames: int, cap: nat, before: seq<int>, after: seq<int>)
    requires i < |trace| && 0 < cap && (frames == cap || (frames < 0 && |before| < cap))
    requires Step(FIFO, trace, i, frames, before, after)
    ensures after == FifoNext(before, trace[i], cap)
  {
    if trace[i] !in before && |before| == frames {
      assert Without(before, 0) == before[1..];
    }
  }

  // ----- No anomaly with almost twice the frames

  /** How many more misses the page survives; -1 if it is not resident. */
  function Life(cap: nat, memory: seq<int>, page: int): int {
    if page in memory then Find(memory, page) + cap - |memory| else -1
  }

  ghost predicate Resident(cap: nat, memory: seq<int>) {
    Distinct(memory) && |memory| <= cap
  }

  /** A miss shortens every life by one and gives the new page the longest. */
  lemma LifeNext(cap: nat, memory: seq<int>, page: int, x: int)
    requires Resident(cap, memory) && cap > 0 && page !in memory
    ensures var memory' := FifoNext(memory, page, cap);
      Resident(cap, memory')
      && Life(cap, memory', x) == (if x == page then cap - 1 else if x in memory then Life(cap, memory, x) - 1 else -1)
  {
    var memory' := FifoNext(memory, page, cap);
    var shift := if |memory| == cap then 1 else 0;
    assert memory' == memory[shift..] + [page];
    if x == page {
      FindUnique(memory', |memory'| - 1);
    } else if x in memory && Find(memory, x) >= shift {
      var k := Find(memory, x);
      assert memory'[k - shift] == x;
      FindUnique(memory', k - shift);
    } else if x in memory {
      assert x == memory[0];
    }
  }

  /** The pages that the small memory keeps longer than the large one, once the large one has missed k times alone. */
  ghost function Doomed(a: nat, small: seq<int>, b: nat, large: seq<int>, k: int): set<int> {
    set x | x in small && Life(b, large, x) < Life(a, small, x) + k
  }

  lemma DoomedBound(a: nat, small: seq<int>, b: nat, large: seq<int>, k: int)
    requires Resident(a, small)
    ensures |Doomed(a, small, b, large, k)| <= a
  {
    DistinctCard(small);
    CardSubset(Doomed(a, small, b, large, k), Elems(small));
  }

  /** The small memory has missed lead times more, enough to pay for what the large one can still lose. */
  ghost predicate Paid(a: nat, small: seq<int>, b: nat, large: seq<int>, lead: int) {
    exists k: nat :: k <= lead && k <= a && |Doomed(a, small, b, large, k)| <= k
  }

  lemma BothMiss(a: nat, small: seq<int>, b: nat, large: seq<int>, page: int, k: nat)
    requires Resident(a, small) && Resident(b, large) && 0 < a && 2 * a - 1 <= b
    requires page !in small && page !in large && k <= a && |Doomed(a, small, b, large, k)| <= k
    ensures |Doomed(a, FifoNext(small, page, a), b, FifoNext(large, page, b), k)| <= k
  {
    var small', large' := FifoNext(small, page, a), FifoNext(large, page, b);
    LifeNext(a, small, page, page);
    if k == a {
      DoomedBound(a, small', b, large', k);
    } else {
      forall x | x in Doomed(a, small', b, large', k) ensures x in Doomed(a, small, b, large, k) {
        LifeNext(a, small, page, x);
        LifeNext(b, large, page, x);
      }
      CardSubset(Doomed(a, small', b, large', k), Doomed(a, small, b, large, k));
    }
  }

  lemma LargeMisses(a: nat, small: seq<int>, b: nat, large: seq<int>, page: int, k: nat)
    requires Resident(a, small) && Resident(b, large) && 0 < a && 2 * a - 1 <= b
    requires page in small && page !in large && k <= a && |Doomed(a, small, b, large, k)| <= k
    ensures k > 0 && |Doomed(a, small, b, FifoNext(large, page, b), k - 1)| <= k - 1
  {
    var large' := FifoNext(large, page, b);
    var doomed, doomed' := Doomed(a, small, b, large, k), Doomed(a, small, b, large', k - 1);
    assert page in doomed;
    forall x | x in doomed' ensures x in doomed - {page} {
      LifeNext(b, large, page, x);
    }
    CardSubset(doomed', doomed - {page});
  }

  lemma SmallMisses(a: nat, small: seq<int>, b: nat, large: seq<int>, page: int, k: nat)
    requires Resident(a, small) && Resident(b, large) && 0 < a && page !in small && page in large
    requires |Doomed(a, small, b, large, k)| <= k
    ensures |Doomed(a, FifoNext(small, page, a), b, large, k + 1)| <= k + 1
  {
    var small' := FifoNext(small, page, a);
    var doomed, doomed' := Doomed(a, small, b, large, k), Doomed(a, small', b, large, k + 1);
    forall x | x in doomed' ensures x in doomed + {page} {
      LifeNext(a, small, page, x);
    }
    CardSubset(doomed', doomed + {page});
  }

  lemma NextResident(cap: nat, memory: seq<int>, page: int)
    requires Resident(cap, memory) && cap > 0
    ensures Resident(cap, FifoNext(memory, page, cap))
  {
    if page !in memory {
      LifeNext(cap, memory, page, page);
    }
  }

  /** One access keeps the lead paid. */
  lemma PaidNext(a: nat, small: seq<int>, b: nat, large: seq<int>, page: int, lead: int)
    requires Resident(a, small) && Resident(b, large) && 0 < a && 2 * a - 1 <= b && Paid(a, small, b, large, lead)
    ensures var lead' := lead + (if page in small then 0 else 1) - (if page in large then 0 else 1);
      Paid(a, FifoNext(small, page, a), b, FifoNext(large, page, b), lead')
  {
    var k: nat :| k <= lead && k <= a && |Doomed(a, small, b, large, k)| <= k;
    if page in small {
      if page !in large {
        LargeMisses(a, small, b, large, page, k);
        var less: nat := k - 1;
        assert |Doomed(a, small, b, FifoNext(large, page, b), less)| <= less;
      }
    } else if page !in large {
      BothMiss(a, small, b, large, page, k);
    } else {
      SmallMisses(a, small, b, large, page, k);
      NextResident(a, small, page);
      var more: nat := if k < a then k + 1 else a;
      DoomedBound(a, FifoNext(small, page, a), b, large, more);
      assert |Doomed(a, FifoNext(small, page, a), b, large, more)| <= more;
    }
  }

  lemma {:induction false} StaysPaid(trace: seq<int>, a: nat, frames: int, b: nat, small: seq<seq<int>>,
                                     large: seq<seq<int>>, i: nat)
    requires 0 < a && 2 * a - 1 <= b && (frames == b || (frames < 0 && |trace| <= b))
    requires Run(FIFO, trace, a, small) && Run(FIFO, trace, frames, large) && i < |small| && i < |large|
    ensures Resident(a, small[i]) && Resident(b, large[i]) && |large[i]| <= i
    ensures Paid(a, small[i], b, large[i], Misses(trace, small, i) - Misses(trace, large, i))
  {
    if i == 0 {
      var none: nat := 0;
      assert Doomed(a, [], b, [], none) == {};
    } else {
      StaysPaid(trace, a, frames, b, small, large, i - 1);
      assert StepAt(FIFO, trace, a, small, i - 1);
      assert StepAt(FIFO, trace, frames, large, i - 1);
      FifoStepIs(trace, i - 1, a, a, small[i - 1], small[i]);
      FifoStepIs(trace, i - 1, frames, b, large[i - 1], large[i]);
      NextResident(a, small[i - 1], trace[i - 1]);
      NextResident(b, large[i - 1], trace[i - 1]);
      PaidNext(a, small[i - 1], b, large[i - 1], trace[i - 1],
               Misses(trace, small, i - 1) - Misses(trace, large, i - 1));
    }
  }

  /** With 2 * frames - 1 frames or more, or unlimited ones, FIFO never misses more than with frames of them. */
  lemma NoAnomaly(trace: seq<int>, frames: int, frames': int, small: seq<seq<int>>, large: seq<seq<int>>, i: nat)
    requires 0 < frames && (frames' < 0 || 2 * frames - 1 <= frames')
    requires Run(FIFO, trace, frames, small) && Run(FIFO, trace, frames', large) && i < |small| && i < |large|
    ensures Misses(trace, large, i) <= Misses(trace, small, i)
  {
    var b: nat := if frames' < 0 then |trace| + 2 * frames else frames';
    StaysPaid(trace, frames, frames', b, small, large, i);
  }

  // ----- A trace with the anomaly, for all other numbers of frames

  /** What FIFO holds after it has fetched these pages. */
  function Last(cap: nat, fetched: seq<int>): seq<int> {
    if |fetched| <= cap then fetched else fetched[|fetched| - cap..]
  }

  /** The memory holds the last of the first n pages fetched, and no more have been fetched. */
  ghost predicate Fetched(trace: seq<int>, lists: seq<seq<int>>, i: nat, cap: nat, all: seq<int>, n: nat) {
    i <= |trace| && i < |lists| && n <= |all| && lists[i] == Last(cap, all[..n]) && Misses(trace, lists, i) == n
  }

  lemma FetchMore(trace: seq<int>, lists: seq<seq<int>>, i: nat, cap: nat, all: seq<int>, n: nat)
    requires 0 < cap && Run(FIFO, trace, cap, lists) && i < |trace| && i + 1 < |lists|
    requires Fetched(trace, lists, i, cap, all, n) && n < |all| && trace[i] == all[n]
    requires forall k :: 0 <= k < n && n - k <= cap ==> all[k] != all[n]
    ensures Fetched(trace, lists, i + 1, cap, all, n + 1)
  {
    assert StepAt(FIFO, trace, cap, lists, i);
    FifoStepIs(trace, i, cap, cap, lists[i], lists[i + 1]);
    assert all[..n + 1] == all[..n] + [all[n]];
    assert lists[i + 1] == Last(cap, all[..n + 1]);
  }

  lemma FetchNone(trace: seq<int>, lists: seq<seq<int>>, i: nat, cap: nat, all: seq<int>, n: nat, k: nat)
    requires 0 < cap && Run(FIFO, trace, cap, lists) && i < |trace| && i + 1 < |lists|
    requires Fetched(trace, lists, i, cap, all, n) && k < n && n - k <= cap && trace[i] == all[k]
    ensures Fetched(trace, lists, i + 1, cap, all, n)
  {
    assert StepAt(FIFO, trace, cap, lists, i);
    FifoStepIs(trace, i, cap, cap, lists[i], lists[i + 1]);
    assert Last(cap, all[..n])[if n <= cap then k else k - (n - cap)] == all[k];
  }

  /** Pages 1 to b, 1 to a - 1, a new page, 1 to b, and the new page again. */
  function AnomalyTrace(a: nat, b: nat): (trace: seq<int>)
    requires 0 < a
    ensures |trace| == 2 * b + a + 1
  {
    seq(2 * b + a + 1, t =>
      if t < b then t + 1 else if t < b + a - 1 then t - b + 1 else if t == b + a - 1 then b + 1
      else if t < 2 * b + a then t - (b + a) + 1 else b + 1)
  }

  /** The pages fetched on that trace with a frames: all but the third a - 1 ones and the last one. */
  function SmallFetches(a: nat, b: nat): (all: seq<int>)
    requires 0 < a
    ensures |all| == 2 * b + 1
  {
    seq(2 * b + 1, n =>
      if n < b then n + 1 else if n < b + a - 1 then n - b + 1 else if n == b + a - 1 then b + 1 else n - b)
  }

  /** The pages fetched on that trace with b frames: b + 1 pages round and round. */
  function LargeFetches(b: nat): (all: seq<int>)
    ensures |all| == 2 * b + 2
  {
    seq(2 * b + 2, n => if n <= b then n + 1 else n - b)
  }

  lemma {:induction false} SmallAt(a: nat, b: nat, lists: seq<seq<int>>, t: nat)
    requires 0 < a < b < 2 * a - 1 && t < |lists| && Run(FIFO, AnomalyTrace(a, b), a, lists)
    ensures Fetched(AnomalyTrace(a, b), lists, t, a, SmallFetches(a, b),
                    if t <= b + a then t else if t < b + 2 * a - 1 then b + a
                    else if t <= 2 * b + a then t - (a - 1) else 2 * b + 1)
  {
    var trace, all := AnomalyTrace(a, b), SmallFetches(a, b);
    if t > 0 {
      var i := t - 1;
      SmallAt(a, b, lists, i);
      if i < b + a {
        FetchMore(trace, lists, i, a, all, i);
      } else if i < b + 2 * a - 1 {
        FetchNone(trace, lists, i, a, all, b + a, i - a);
      } else if i < 2 * b + a {
        FetchMore(trace, lists, i, a, all, i - (a - 1));
      } else {
        FetchNone(trace, lists, i, a, all, 2 * b + 1, b + a - 1);
      }
    }
  }

  lemma {:induction false} LargeAt(a: nat, b: nat, lists: seq<seq<int>>, t: nat)
    requires 0 < a < b < 2 * a - 1 && t < |lists| && Run(FIFO, AnomalyTrace(a, b), b, lists)
    ensures Fetched(AnomalyTrace(a, b), lists, t, b, LargeFetches(b),
                    if t <= b then t else if t < b + a - 1 then b else t - (a - 1))
  {
    var trace, all := AnomalyTrace(a, b), LargeFetches(b);
    if t > 0 {
      var i := t - 1;
      LargeAt(a, b, lists, i);
      if i < b {
        FetchMore(trace, lists, i, b, all, i);
      } else if i < b + a - 1 {
        FetchNone(trace, lists, i, b, all, b, i - b);
      } else {
        FetchMore(trace, lists, i, b, all, i - (a - 1));
      }
    }
  }

  /** The anomaly: with more frames, but fewer than 2 * frames - 1, one miss more on this trace. */
  lemma Anomaly(a: nat, b: nat, small: seq<seq<int>>, large: seq<seq<int>>)
    requires 0 < a < b < 2 * a - 1
    requires var trace := AnomalyTrace(a, b);
      |small| == |large| == |trace| + 1 && Run(FIFO, trace, a, small) && Run(FIFO, trace, b, large)
    ensures var trace := AnomalyTrace(a, b);
      Misses(trace, small, |trace|) == 2 * b + 1 && Misses(trace, large, |trace|) == 2 * b + 2
  {
    SmallAt(a, b, small, 2 * b + a + 1);
    LargeAt(a, b, large, 2 * b + a + 1);
  }

  // ----- Exactly when

  lemma {:induction false} RunExists(trace: seq<int>, frames: nat, n: nat) returns (lists: seq<seq<int>>)
    requires 0 < frames && n <= |trace|
    ensures Run(FIFO, trace, frames, lists) && |lists| == n + 1
  {
    if n == 0 {
      lists := [[]];
    } else {
      lists := RunExists(trace, frames, n - 1);
      var before, page := lists[n - 1], trace[n - 1];
      var after := FifoNext(before, page, frames);
      if |before| == frames {
        assert Without(before, 0) == before[1..];
      }
      RunExtend(FIFO, trace, frames, lists, after);
      lists := lists + [after];
    }
  }

  /** On this trace FIFO misses more often with the larger number of frames. */
  ghost predicate Anomalous(trace: seq<int>, frames: int, frames': int) {
    exists small, large :: |small| == |large| == |trace| + 1
      && Run(FIFO, trace, frames, small) && Run(FIFO, trace, frames', large)
      && Misses(trace, large, |trace|) > Misses(trace, small, |trace|)
  }

  lemma AnomalyIff(frames: int, frames': int)
    requires 0 < frames < frames'
    ensures (exists trace :: Anomalous(trace, frames, frames')) <==> frames' < 2 * frames - 1
  {
    if frames' < 2 * frames - 1 {
      var trace := AnomalyTrace(frames, frames');
      var small := RunExists(trace, frames, |trace|);
      var large := RunExists(trace, frames', |trace|);
      Anomaly(frames, frames', small, large);
      assert Anomalous(trace, frames, frames');
    } else {
      forall trace ensures !Anomalous(trace, frames, frames') {
        forall small, large | |small| == |large| == |trace| + 1
          && Run(FIFO, trace, frames, small) && Run(FIFO, trace, frames', large)
          ensures Misses(trace, large, |trace|) <= Misses(trace, small, |trace|)
        {
          NoAnomaly(trace, frames, frames', small, large, |trace|);
        }
      }
    }
  }
}
