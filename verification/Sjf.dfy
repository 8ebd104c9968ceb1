/**
 * Shortest job first (related_info/ostep/ostep8-scheduler.py): no order of the jobs makes the sum of their
 * waiting, response or turnaround times smaller than the order by run time.
 */
module Sjf {

  datatype Job = Job(num: int, runtime: real)

  function Times(jobs: seq<Job>): (r: seq<real>)
    ensures |r| == |jobs|
  {
    if jobs == [] then [] else Times(jobs[..|jobs| - 1]) + [jobs[|jobs| - 1].runtime]
  }

  function Total(s: seq<real>): real {
    if s == [] then 0.0 else Total(s[..|s| - 1]) + s[|s| - 1]
  }

  /** The sum of the times at which the jobs start when they run in this order. */
  function WaitSum(s: seq<real>): real {
    if s == [] then 0.0 else WaitSum(s[..|s| - 1]) + Total(s[..|s| - 1])
  }

  /** Putting a job behind all those that take no longer than it does. */
  function Insert(s: seq<Job>, x: Job): seq<Job> {
    if s == [] || s[|s| - 1].runtime <= x.runtime then s + [x]
    else Insert(s[..|s| - 1], x) + [s[|s| - 1]]
  }

  /** A stable sort by run time. */
  function Sort(jobs: seq<Job>): seq<Job> {
    if jobs == [] then [] else Insert(Sort(jobs[..|jobs| - 1]), jobs[|jobs| - 1])
  }

  predicate Ascending(s: seq<real>) {
    forall i, j :: 0 <= i < j < |s| ==> s[i] <= s[j]
  }

  function Min(x: real, y: real): real {
    if x < y then x else y
  }

  function MinWith(s: seq<real>, x: real): real {
    if s == [] then 0.0 else MinWith(s[..|s| - 1], x) + Min(s[|s| - 1], x)
  }

  /** The sum of the smaller of two run times, over all pairs of jobs. */
  function PairMin(s: seq<real>): real {
    if s == [] then 0.0 else PairMin(s[..|s| - 1]) + MinWith(s[..|s| - 1], s[|s| - 1])
  }

  lemma {:induction false} MinWithTotal(s: seq<real>, x: real)
    ensures MinWith(s, x) <= Total(s)
    ensures (forall i :: 0 <= i < |s| ==> s[i] <= x) ==> MinWith(s, x) == Total(s)
  {
    if s != [] {
      MinWithTotal(s[..|s| - 1], x);
    }
  }

  /** Each pair of jobs makes one wait for the other, and at best for the shorter one. */
  lemma {:induction false} WaitsAtLeast(s: seq<real>)
    ensures PairMin(s) <= WaitSum(s)
    ensures Ascending(s) ==> PairMin(s) == WaitSum(s)
  {
    if s != [] {
      WaitsAtLeast(s[..|s| - 1]);
      MinWithTotal(s[..|s| - 1], s[|s| - 1]);
    }
  }

  // ----- The pairs do not depend on the order

  /** The sequence without its element k. */
  function Cut<T>(s: seq<T>, k: nat): (r: seq<T>)
    requires k < |s|
    ensures |r| == |s| - 1
  {
    s[..k] + s[k + 1..]
  }

  lemma CutLast<T>(s: seq<T>)
    requires s != []
    ensures Cut(s, |s| - 1) == s[..|s| - 1]
  {
  }

  /** Taking out another element than the last leaves the last. */
  lemma CutInit<T>(s: seq<T>, k: nat)
    requires k < |s| - 1
    ensures var rest := Cut(s, k);
      rest != [] && rest[..|rest| - 1] == Cut(s[..|s| - 1], k) && rest[|rest| - 1] == s[|s| - 1]
  {
  }

  lemma Without<T>(s: seq<T>, k: nat)
    requires k < |s|
    ensures multiset(s) == multiset(Cut(s, k)) + multiset{s[k]}
  {
    assert s == s[..k] + [s[k]] + s[k + 1..];
  }

  /** The place of a last element in a sequence with the same elements, and the same elements but for it. */
  lemma SameCut<T>(s: seq<T>, t: seq<T>) returns (k: nat)
    requires multiset(s) == multiset(t) && s != []
    ensures k < |t| && t[k] == s[|s| - 1] && multiset(s[..|s| - 1]) == multiset(Cut(t, k))
  {
    var n := |s| - 1;
    assert s[n] in multiset(s);
    k :| 0 <= k < |t| && t[k] == s[n];
    Without(s, n);
    CutLast(s);
    Without(t, k);
    SameButOne(multiset(s[..n]), multiset(Cut(t, k)), s[n]);
  }

  lemma SameButOne<T>(a: multiset<T>, b: multiset<T>, x: T)
    requires a + multiset{x} == b + multiset{x}
    ensures a == b
  {
    assert a == a + multiset{x} - multiset{x} && b == b + multiset{x} - multiset{x};
  }

  lemma NoneLeft<T>(s: seq<T>, t: seq<T>)
    requires multiset(s) == multiset(t) && s == []
    ensures t == []
  {
    assert |multiset(s)| == |s| && |multiset(t)| == |t|;
  }

  lemma {:induction false} MinWithCut(s: seq<real>, k: nat, x: real)
    requires k < |s|
    ensures MinWith(s, x) == MinWith(Cut(s, k), x) + Min(s[k], x)
  {
    if k == |s| - 1 {
      CutLast(s);
    } else {
      MinWithCut(s[..|s| - 1], k, x);
      CutInit(s, k);
    }
  }

  /** Taking job k out takes its pairs out. */
  lemma {:induction false} PairMinCut(s: seq<real>, k: nat)
    requires k < |s|
    ensures PairMin(s) == PairMin(Cut(s, k)) + MinWith(Cut(s, k), s[k])
  {
    if k == |s| - 1 {
      CutLast(s);
    } else {
      PairMinCut(s[..|s| - 1], k);
      MinWithCut(s[..|s| - 1], k, s[|s| - 1]);
      CutInit(s, k);
    }
  }

  lemma {:induction false} MinWithSame(s: seq<real>, t: seq<real>, x: real)
    requires multiset(s) == multiset(t)
    ensures MinWith(s, x) == MinWith(t, x)
    decreases |s|
  {
    if s == [] {
      NoneLeft(s, t);
    } else {
      var k := SameCut(s, t);
      MinWithSame(s[..|s| - 1], Cut(t, k), x);
      MinWithCut(t, k, x);
    }
  }

  lemma {:induction false} PairMinSame(s: seq<real>, t: seq<real>)
    requires multiset(s) == multiset(t)
    ensures PairMin(s) == PairMin(t)
    decreases |s|
  {
    if s == [] {
      NoneLeft(s, t);
    } else {
      var k := SameCut(s, t);
      PairMinSame(s[..|s| - 1], Cut(t, k));
      MinWithSame(s[..|s| - 1], Cut(t, k), s[|s| - 1]);
      PairMinCut(t, k);
    }
  }

  lemma {:induction false} TotalSame(s: seq<real>, t: seq<real>)
    requires multiset(s) == multiset(t)
    ensures Total(s) == Total(t)
    decreases |s|
  {
    if s == [] {
      NoneLeft(s, t);
    } else {
      var k := SameCut(s, t);
      TotalSame(s[..|s| - 1], Cut(t, k));
      TotalCut(t, k);
    }
  }

  lemma {:induction false} TotalCut(s: seq<real>, k: nat)
    requires k < |s|
    ensures Total(s) == Total(Cut(s, k)) + s[k]
  {
    if k == |s| - 1 {
      CutLast(s);
    } else {
      TotalCut(s[..|s| - 1], k);
      CutInit(s, k);
    }
  }

  // ----- Sorting

  predicate ByTime(s: seq<Job>) {
    forall i, j :: 0 <= i < j < |s| ==> s[i].runtime <= s[j].runtime
  }

  lemma {:induction false} InsertIs(s: seq<Job>, x: Job)
    ensures multiset(Insert(s, x)) == multiset(s) + multiset{x}
    ensures forall y :: y in Insert(s, x) <==> y in s || y == x
  {
    if !(s == [] || s[|s| - 1].runtime <= x.runtime) {
      var n := |s| - 1;
      InsertIs(s[..n], x);
      assert s == s[..n] + [s[n]];
    }
  }

  lemma {:induction false} InsertOrdered(s: seq<Job>, x: Job)
    requires ByTime(s)
    ensures ByTime(Insert(s, x))
  {
    if !(s == [] || s[|s| - 1].runtime <= x.runtime) {
      var init, last := s[..|s| - 1], s[|s| - 1];
      var r := Insert(init, x);
      InsertOrdered(init, x);
      InsertIs(init, x);
      forall i | 0 <= i < |r| ensures r[i].runtime <= last.runtime {
        assert r[i] in r;
      }
    }
  }

  lemma {:induction false} TimesAt(s: seq<Job>)
    ensures forall i :: 0 <= i < |s| ==> Times(s)[i] == s[i].runtime
  {
    if s != [] {
      TimesAt(s[..|s| - 1]);
    }
  }

  lemma {:induction false} SortIs(jobs: seq<Job>)
    ensures multiset(Sort(jobs)) == multiset(jobs) && ByTime(Sort(jobs))
  {
    if jobs != [] {
      var init, last := jobs[..|jobs| - 1], jobs[|jobs| - 1];
      SortIs(init);
      InsertIs(Sort(init), last);
      InsertOrdered(Sort(init), last);
      assert jobs == init + [last];
    }
  }

  /** The jobs with this run time. */
  function OfTime(s: seq<Job>, t: real): seq<Job> {
    if s == [] then [] else OfTime(s[..|s| - 1], t) + (if s[|s| - 1].runtime == t then [s[|s| - 1]] else [])
  }

  lemma OfTimeMore(s: seq<Job>, x: Job, t: real)
    ensures OfTime(s + [x], t) == OfTime(s, t) + (if x.runtime == t then [x] else [])
  {
    assert (s + [x])[..|s|] == s;
  }

  lemma {:induction false} InsertStable(s: seq<Job>, x: Job, t: real)
    ensures OfTime(Insert(s, x), t) == OfTime(s + [x], t)
  {
    OfTimeMore(s, x, t);
    if !(s == [] || s[|s| - 1].runtime <= x.runtime) {
      var init, last := s[..|s| - 1], s[|s| - 1];
      InsertStable(init, x, t);
      OfTimeMore(init, x, t);
      OfTimeMore(Insert(init, x), last, t);
    }
  }

  /** Jobs with the same run time keep their order. */
  lemma {:induction false} SortStable(jobs: seq<Job>, t: real)
    ensures OfTime(Sort(jobs), t) == OfTime(jobs, t)
  {
    if jobs != [] {
      var init, last := jobs[..|jobs| - 1], jobs[|jobs| - 1];
      SortStable(init, t);
      InsertStable(Sort(init), last, t);
      OfTimeMore(Sort(init), last, t);
      OfTimeMore(init, last, t);
      assert jobs == init + [last];
    }
  }

  /** The same jobs have the same run times. */
  lemma {:induction false} TimesSame(a: seq<Job>, b: seq<Job>)
    requires multiset(a) == multiset(b)
    ensures multiset(Times(a)) == multiset(Times(b))
    decreases |a|
  {
    if a == [] {
      NoneLeft(a, b);
    } else {
      var k := SameCut(a, b);
      TimesSame(a[..|a| - 1], Cut(b, k));
      TimesCut(b, k);
    }
  }

  lemma {:induction false} TimesCut(b: seq<Job>, k: nat)
    requires k < |b|
    ensures multiset(Times(b)) == multiset(Times(Cut(b, k))) + multiset{b[k].runtime}
  {
    if k == |b| - 1 {
      CutLast(b);
    } else {
      TimesCut(b[..|b| - 1], k);
      CutInit(b, k);
    }
  }

  // ----- The simulator

  /** What one more job adds to the times. */
  lemma OneMore(joblist: seq<Job>, i: nat)
    requires i < |joblist|
    ensures var s, t := Times(joblist[..i]), Times(joblist[..i + 1]);
      Total(t) == Total(s) + joblist[i].runtime && WaitSum(t) == WaitSum(s) + Total(s)
  {
    assert joblist[..i + 1][..i] == joblist[..i];
    TimesInit(joblist[..i + 1]);
  }

  lemma TimesInit(jobs: seq<Job>)
    requires jobs != []
    ensures var n, t := |jobs| - 1, Times(jobs); t[..n] == Times(jobs[..n]) && t[n] == jobs[n].runtime
  {
  }

  /** The statistics of running the jobs in the order given. */
  method Statistics(joblist: seq<Job>) returns (turnaroundSum: real, waitSum: real, responseSum: real)
    ensures waitSum == responseSum == WaitSum(Times(joblist))
    ensures turnaroundSum == WaitSum(Times(joblist)) + Total(Times(joblist))
  {
    turnaroundSum, waitSum, responseSum := 0.0, 0.0, 0.0;
    var t, i := 0.0, 0;
    while i < |joblist|
      invariant 0 <= i <= |joblist|
      invariant t == Total(Times(joblist[..i]))
      invariant waitSum == responseSum == WaitSum(Times(joblist[..i]))
      invariant turnaroundSum == WaitSum(Times(joblist[..i])) + t
    {
      var runtime := joblist[i].runtime;
      var response, turnaround, wait := t, t + runtime, t;
      OneMore(joblist, i);
      responseSum := responseSum + response;
      turnaroundSum := turnaroundSum + turnaround;
      waitSum := waitSum + wait;
      t := t + runtime;
      i := i + 1;
    }
    assert joblist[..i] == joblist;
  }

  /** Running the jobs by run time makes all three sums as small as any order of the same jobs can. */
  lemma SortedIsBest(jobs: seq<Job>, other: seq<Job>)
    requires multiset(other) == multiset(jobs)
    ensures multiset(Sort(jobs)) == multiset(jobs)
    ensures WaitSum(Times(Sort(jobs))) <= WaitSum(Times(other))
    ensures WaitSum(Times(Sort(jobs))) + Total(Times(Sort(jobs))) <= WaitSum(Times(other)) + Total(Times(other))
  {
    SortIs(jobs);
    TimesAt(Sort(jobs));
    TimesSame(Sort(jobs), other);
    WaitsAtLeast(Times(Sort(jobs)));
    WaitsAtLeast(Times(other));
    PairMinSame(Times(Sort(jobs)), Times(other));
    TotalSame(Times(Sort(jobs)), Times(other));
  }
}
