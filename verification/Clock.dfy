/**
 * What reference counts are worth under CLOCK (related_info/ostep/ostep6-paging-policy.py): a page that was hit
 * while it was resident stays for as many more probes as the hits have left in its count.
 */
module Clock {
  import opened Paging

  /** Under CLOCK exactly the resident pages have counts. */
  lemma {:induction false} CountedPages(trace: seq<int>, frames: int, clockbits: int, lists: seq<seq<int>>,
                                        refs: seq<map<int, int>>, scans: seq<seq<int>>, i: nat)
    requires frames != 0 && Run(CLOCK, trace, frames, lists)
    requires Counts(CLOCK, trace, frames, clockbits, lists, refs, scans) && i < |lists|
    ensures forall p :: p in refs[i] <==> p in lists[i]
  {
    if i > 0 {
      CountedPages(trace, frames, clockbits, lists, refs, scans, i - 1);
      assert StepAt(CLOCK, trace, frames, lists, i - 1);
      assert CountedAt(CLOCK, trace, frames, clockbits, lists, refs, scans, i - 1);
      CountedNext(trace, frames, clockbits, i - 1, lists[i - 1], lists[i], refs[i - 1], refs[i], scans[i - 1]);
    }
  }

  lemma CountedNext(trace: seq<int>, frames: int, clockbits: int, i: nat, memory: seq<int>, memory': seq<int>,
                    ref: map<int, int>, ref': map<int, int>, scan: seq<int>)
    requires i < |trace| && Step(CLOCK, trace, i, frames, memory, memory')
    requires Counted(CLOCK, trace[i], |memory| == frames, clockbits, memory, memory', ref, ref', scan)
    requires forall p :: p in ref <==> p in memory
    ensures forall p :: p in memory' ==> p in ref'
    ensures forall p :: p in ref' ==> p in memory'
  {
    var page := trace[i];
    if page in memory || |memory| != frames {
      assert forall p :: p in memory' <==> p in memory || p == page;
    } else {
      forall p | p in ref' ensures p in memory' {
        if p != page {
          assert p in ref' - {page};
        }
      }
    }
  }

  /** How often page p is accessed after access a and before access b. */
  function Hits(trace: seq<int>, p: int, a: nat, b: nat): nat
    requires b <= |trace|
    decreases b
  {
    if b <= a + 1 then 0 else Hits(trace, p, a, b - 1) + (if trace[b - 1] == p then 1 else 0)
  }

  /** Page p is fetched by access a, and resident and not probed from then on until access b. */
  ghost predicate Rests(trace: seq<int>, lists: seq<seq<int>>, scans: seq<seq<int>>, p: int, a: nat, b: nat) {
    a < b < |lists| && |lists| == |scans| + 1 <= |trace| + 1 && trace[a] == p && p !in lists[a]
    && (forall i :: a < i <= b ==> p in lists[i])
    && forall i :: a < i < b ==> ProbeCount(scans[i], p) == 0
  }

  /** The count of a page fetched and hit h times since, at most clockbits as soon as it is hit. */
  function CountAfter(h: nat, clockbits: int): int {
    if h == 0 then 1 else if clockbits < 1 + h then clockbits else 1 + h
  }

  /** Every hit counts. */
  lemma {:induction false} CountIs(trace: seq<int>, frames: int, clockbits: int, lists: seq<seq<int>>,
                                   refs: seq<map<int, int>>, scans: seq<seq<int>>, p: int, a: nat, b: nat)
    requires frames != 0 && Run(CLOCK, trace, frames, lists)
    requires Counts(CLOCK, trace, frames, clockbits, lists, refs, scans) && Rests(trace, lists, scans, p, a, b)
    ensures p in refs[b] && refs[b][p] == CountAfter(Hits(trace, p, a, b), clockbits)
    decreases b
  {
    CountedPages(trace, frames, clockbits, lists, refs, scans, b);
    CountedPages(trace, frames, clockbits, lists, refs, scans, b - 1);
    assert CountedAt(CLOCK, trace, frames, clockbits, lists, refs, scans, b - 1);
    if b > a + 1 {
      CountIs(trace, frames, clockbits, lists, refs, scans, p, a, b - 1);
      assert p in lists[b - 1] && p in lists[b] && ProbeCount(scans[b - 1], p) == 0;
      OneCount(trace[b - 1], |lists[b - 1]| == frames, clockbits, lists[b - 1], lists[b], refs[b - 1], refs[b],
               scans[b - 1], p);
    }
  }

  /** What one access does to the count of a page that stays and is not probed. */
  lemma OneCount(page: int, full: bool, clockbits: int, memory: seq<int>, memory': seq<int>, ref: map<int, int>,
                 ref': map<int, int>, scan: seq<int>, p: int)
    requires Counted(CLOCK, page, full, clockbits, memory, memory', ref, ref', scan)
    requires p in memory && p in memory' && p in ref && p in ref' && ProbeCount(scan, p) == 0
    ensures ref'[p] == if p != page then ref[p] else if clockbits < ref[p] + 1 then clockbits else ref[p] + 1
  {
    if !(page in memory || !full) {
      assert p != page && (ref' - {page})[p] == ref'[p];
    }
  }

  /** An access that evicts page p probes it once more than its count says. */
  lemma EvictionProbes(trace: seq<int>, frames: int, clockbits: int, i: nat, memory: seq<int>, memory': seq<int>,
                       ref: map<int, int>, ref': map<int, int>, scan: seq<int>, p: int)
    requires i < |trace| && Step(CLOCK, trace, i, frames, memory, memory')
    requires Counted(CLOCK, trace[i], |memory| == frames, clockbits, memory, memory', ref, ref', scan)
    requires p in memory && p !in memory' && p in ref
    ensures ProbeCount(scan, p) == 1 + (if ref[p] > 0 then ref[p] else 0)
  {
    assert trace[i] !in memory && |memory| == frames;
  }

  /** A page that was hit h times since it was fetched, and not probed since, takes as many probes of its own as that
      makes its count before the one that evicts it: with clockbits above 0, one for its fetch and one for each hit, up
      to clockbits of them. */
  lemma SecondChances(trace: seq<int>, frames: int, clockbits: int, lists: seq<seq<int>>, refs: seq<map<int, int>>,
                      scans: seq<seq<int>>, p: int, a: nat, b: nat)
    requires frames != 0 && Run(CLOCK, trace, frames, lists)
    requires Counts(CLOCK, trace, frames, clockbits, lists, refs, scans) && Rests(trace, lists, scans, p, a, b)
    requires b < |scans| && p !in lists[b + 1]
    ensures var c := CountAfter(Hits(trace, p, a, b), clockbits);
      ProbeCount(scans[b], p) == 1 + (if c > 0 then c else 0)
  {
    CountIs(trace, frames, clockbits, lists, refs, scans, p, a, b);
    assert StepAt(CLOCK, trace, frames, lists, b);
    assert CountedAt(CLOCK, trace, frames, clockbits, lists, refs, scans, b);
    EvictionProbes(trace, frames, clockbits, b, lists[b], lists[b + 1], refs[b], refs[b + 1], scans[b], p);
  }
}
