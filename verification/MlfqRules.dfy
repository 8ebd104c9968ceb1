/**
 * What the rules of the multi-level feedback queue (related_info/ostep/ostep9-mlfq.py) do to a job: how much it can
 * run before its priority falls, and how the option to reset the slice after an I/O lets it stay on top.
 */
module MlfqRules {
  import opened Mlfq
  import opened Quotients

  // ----- What one turn does to one job

  predicate HasPriority(job: seq<Job>, j: nat, q: nat) {
    j < |job| && job[j].currPri == q
  }

  /** Every job in a queue has the priority of that queue. */
  ghost predicate Matched(queue: seq<seq<nat>>, job: seq<Job>) {
    forall q, i :: 0 <= q < |queue| && 0 <= i < |queue[q]| ==> HasPriority(job, queue[q][i], q)
  }

  lemma PlacedMatched(cfg: Config, queue: seq<seq<nat>>, job: seq<Job>, ioDone: Events, now: int, where: seq<Place>)
    requires Placed(cfg, queue, job, ioDone, now, where)
    ensures Matched(queue, job)
  {
    forall q, i | 0 <= q < |queue| && 0 <= i < |queue[q]| ensures HasPriority(job, queue[q][i], q) {
      assert Holds(queue[q], where, Queued(q)) && queue[q][i] in queue[q];
      assert JobOk(cfg, job[queue[q][i]], where[queue[q][i]], now);
    }
  }

  lemma ArrivedMatched(cfg: Config, queue: seq<seq<nat>>, job: seq<Job>, e: nat)
    requires Matched(queue, job)
    ensures var (queue', job') := Arrived(cfg, queue, job, e);
      Matched(queue', job') && forall j :: 0 <= j < |job| ==> job'[j] == job[j].(doingIO := job'[j].doingIO)
  {
    if e < |job| && job[e].currPri < |queue| {
      var (queue', job') := Arrived(cfg, queue, job, e);
      forall q, i | 0 <= q < |queue'| && 0 <= i < |queue'[q]| ensures HasPriority(job', queue'[q][i], q) {
        if q != job[e].currPri {
          assert HasPriority(job, queue[q][i], q);
        } else if queue'[q][i] != e {
          var k := if cfg.iobump then i - 1 else i;
          assert queue'[q][i] == queue[q][k] && HasPriority(job, queue[q][k], q);
        }
      }
    }
  }

  /** Events change no record but for the mark of an I/O. */
  lemma {:induction false} ArrivalsMatched(cfg: Config, queue: seq<seq<nat>>, job: seq<Job>, events: seq<nat>, j: nat)
    requires Matched(queue, job) && j < |job|
    ensures var (queue', job') := Arrivals(cfg, queue, job, events);
      Matched(queue', job') && |job'| == |job| && job'[j] == job[j].(doingIO := job'[j].doingIO)
    decreases |events|
  {
    if events != [] {
      var (queue1, job1) := Arrived(cfg, queue, job, events[0]);
      ArrivedMatched(cfg, queue, job, events[0]);
      ArrivalsMatched(cfg, queue1, job1, events[1..], j);
    }
  }

  /** The record of job j before the tick of a turn. */
  function Before(cfg: Config, m: Moment, j: nat): Job
    requires cfg.Ok() && j < |m.job|
  {
    if BoostDue(cfg, m.now) then BoostJob(cfg, m.job[j]) else m.job[j]
  }

  /** Job j runs, from the queue of its priority, or only the mark of an I/O can change. */
  ghost predicate RecordIs(cfg: Config, r: Job, now: int, q: int, doing: bool, r': Job) {
    r' == r.(doingIO := doing)
    || (0 <= q < |cfg.quantum| && r.currPri == q && r' == Executed(cfg, r.(doingIO := doing), q, now))
  }

  /** The boost leaves every job with a record that fits its place. */
  lemma BoostMatched(cfg: Config, m: Moment, queue: seq<seq<nat>>, job: seq<Job>, j: nat)
    requires cfg.Ok() && InOrder(cfg, m) && BoostIs(cfg, m.now, m.queue, m.job, queue, job) && j < |m.job|
    ensures Matched(queue, job) && |job| == |m.job| && job[j] == Before(cfg, m, j)
  {
    var where :| Placed(cfg, m.queue, m.job, m.ioDone, m.now, where);
    if BoostDue(cfg, m.now) {
      BoostKeeps(cfg, m.queue, queue, m.job, job, m.ioDone, m.now, where);
      PlacedMatched(cfg, queue, job, m.ioDone, m.now, Lifted(where, cfg.Hi()));
    } else {
      PlacedMatched(cfg, queue, job, m.ioDone, m.now, where);
    }
  }

  lemma RecordAfter(cfg: Config, queue: seq<seq<nat>>, job: seq<Job>, ioDone: Events, now: int, q: int,
                    queue': seq<seq<nat>>, job': seq<Job>, ioDone': Events, j: nat) returns (doing: bool)
    requires Matched(queue, job) && RestIs(cfg, queue, job, ioDone, now, q, queue', job', ioDone') && j < |job|
    ensures |job'| == |job| && RecordIs(cfg, job[j], now, q, doing, job'[j])
  {
    ArrivalsMatched(cfg, queue, job, Due(ioDone, now), j);
    var (queue2, job2) := Arrivals(cfg, queue, job, Due(ioDone, now));
    doing := job2[j].doingIO;
    if q != -1 {
      assert HasPriority(job2, queue2[q][0], q);
    }
  }

  lemma RecordNext(cfg: Config, m: Moment, q: int, m': Moment, j: nat) returns (doing: bool)
    requires cfg.Ok() && Follows(cfg, m, q, m') && InOrder(cfg, m) && j < |m.job|
    ensures |m'.job| == |m.job| && RecordIs(cfg, Before(cfg, m, j), m.now, q, doing, m'.job[j])
  {
    var queue1, job1: seq<Job> :| BoostIs(cfg, m.now, m.queue, m.job, queue1, job1)
                        && RestIs(cfg, queue1, job1, m.ioDone, m.now, q, m'.queue, m'.job, m'.ioDone);
    BoostMatched(cfg, m, queue1, job1, j);
    doing := RecordAfter(cfg, queue1, job1, m.ioDone, m.now, q, m'.queue, m'.job, m'.ioDone, j);
  }

  // ----- No job overruns its slice

  /** An unfinished job has a tick left in its slice, if the slice is positive, and never more than the slice. */
  lemma UnfinishedInSlice(cfg: Config, m: Moment, j: nat)
    requires InOrder(cfg, m) && j < |m.job| && m.job[j].timeLeft != 0
    ensures m.job[j].currPri < |cfg.quantum| && InSlice(cfg, m.job[j])
  {
    var where :| Placed(cfg, m.queue, m.job, m.ioDone, m.now, where);
    assert JobOk(cfg, m.job[j], where[j], m.now);
  }

  /** What one turn does to one job: the work left never grows; without a boost its priority does not rise; and where it
      keeps a priority above the lowest, each tick that it runs costs it one of its slice, I/O or not. */
  ghost predicate Spends(cfg: Config, now: int, r: Job, r': Job) {
    r'.timeLeft <= r.timeLeft
    && (!BoostDue(cfg, now) ==> r'.currPri <= r.currPri)
    && (!BoostDue(cfg, now) && !cfg.stay && r'.currPri == r.currPri > 0 ==>
          r'.timeLeft - r'.ticksLeft == r.timeLeft - r.ticksLeft)
  }

  lemma TickSpends(cfg: Config, r: Job, now: int, q: nat)
    requires q < |cfg.quantum| && r.currPri == q
    ensures Spends(cfg, now, r, Executed(cfg, r, q, now))
  {
  }

  lemma RecordSpends(cfg: Config, r: Job, now: int, q: int, doing: bool, r': Job)
    requires cfg.Ok()
    requires RecordIs(cfg, if BoostDue(cfg, now) then BoostJob(cfg, r) else r, now, q, doing, r')
    ensures Spends(cfg, now, r, r')
  {
    var r1 := if BoostDue(cfg, now) then BoostJob(cfg, r) else r;
    if r' != r1.(doingIO := doing) {
      TickSpends(cfg, r1.(doingIO := doing), now, q);
    }
  }

  lemma SpendNext(cfg: Config, m: Moment, q: int, m': Moment, j: nat)
    requires cfg.Ok() && Follows(cfg, m, q, m') && InOrder(cfg, m) && j < |m.job|
    ensures |m'.job| == |m.job| && Spends(cfg, m.now, m.job[j], m'.job[j])
  {
    var doing := RecordNext(cfg, m, q, m', j);
    RecordSpends(cfg, m.job[j], m.now, q, doing, m'.job[j]);
  }

  ghost predicate SpendsAt(cfg: Config, moments: seq<Moment>, j: nat, k: nat)
    requires k + 1 < |moments|
  {
    j < |moments[k].job| == |moments[k + 1].job|
    && Spends(cfg, moments[k].now, moments[k].job[j], moments[k + 1].job[j])
  }

  lemma SpendAt(cfg: Config, moments: seq<Moment>, served: seq<int>, j: nat, k: nat)
    requires cfg.Ok() && IsRun(cfg, moments, served) && AllInOrder(cfg, moments) && k < |served|
    requires j < |moments[k].job|
    ensures SpendsAt(cfg, moments, j, k)
  {
    assert TurnAt(cfg, moments, served, k) && InOrder(cfg, moments[k]) && InOrder(cfg, moments[k + 1]);
    SpendNext(cfg, moments[k], served[k], moments[k + 1], j);
  }

  ghost predicate NoBoost(cfg: Config, moments: seq<Moment>, a: nat, b: nat)
    requires b < |moments|
  {
    forall k :: a <= k < b ==> !BoostDue(cfg, moments[k].now)
  }

  lemma {:induction false} TimeFallsTo(cfg: Config, moments: seq<Moment>, served: seq<int>, j: nat, a: nat, b: nat)
    requires cfg.Ok() && IsRun(cfg, moments, served) && AllInOrder(cfg, moments) && a <= b <= |served|
    requires j < |moments[a].job|
    ensures |moments[b].job| == |moments[a].job| && moments[b].job[j].timeLeft <= moments[a].job[j].timeLeft
    decreases b
  {
    if a < b {
      TimeFallsTo(cfg, moments, served, j, a, b - 1);
      SpendAt(cfg, moments, served, j, b - 1);
    }
  }

  lemma {:induction false} PriorityFallsTo(cfg: Config, moments: seq<Moment>, served: seq<int>, j: nat, a: nat, b: nat)
    requires cfg.Ok() && IsRun(cfg, moments, served) && AllInOrder(cfg, moments) && a <= b <= |served|
    requires NoBoost(cfg, moments, a, b) && j < |moments[a].job|
    ensures |moments[b].job| == |moments[a].job| && moments[b].job[j].currPri <= moments[a].job[j].currPri
    decreases b
  {
    if a < b {
      PriorityFallsTo(cfg, moments, served, j, a, b - 1);
      SpendAt(cfg, moments, served, j, b - 1);
    }
  }

  lemma {:induction false} SpendTo(cfg: Config, moments: seq<Moment>, served: seq<int>, j: nat, a: nat, b: nat)
    requires cfg.Ok() && IsRun(cfg, moments, served) && AllInOrder(cfg, moments) && a <= b <= |served|
    requires NoBoost(cfg, moments, a, b) && !cfg.stay && j < |moments[a].job| == |moments[b].job|
    requires moments[b].job[j].currPri == moments[a].job[j].currPri > 0
    ensures moments[b].job[j].timeLeft - moments[b].job[j].ticksLeft
         == moments[a].job[j].timeLeft - moments[a].job[j].ticksLeft
    decreases b
  {
    if a < b {
      PriorityFallsTo(cfg, moments, served, j, a, b - 1);
      SpendAt(cfg, moments, served, j, b - 1);
      assert moments[b - 1].job[j].currPri == moments[a].job[j].currPri;
      SpendTo(cfg, moments, served, j, a, b - 1);
    }
  }

  /** Between two boosts an unfinished job that is still in a queue above the lowest has run there for less than that
      queue's slice, however it splits its work by I/O. */
  lemma SliceBound(cfg: Config, moments: seq<Moment>, served: seq<int>, j: nat, a: nat, b: nat, q: nat)
    requires cfg.Ok() && IsRun(cfg, moments, served) && AllInOrder(cfg, moments) && a <= b <= |served|
    requires NoBoost(cfg, moments, a, b) && !cfg.stay && j < |moments[a].job| == |moments[b].job|
    requires moments[b].job[j].currPri == moments[a].job[j].currPri == q > 0 && moments[b].job[j].timeLeft > 0
    ensures q < |cfg.quantum|
    ensures cfg.quantum[q] >= 1 ==> moments[a].job[j].timeLeft - moments[b].job[j].timeLeft < cfg.quantum[q]
  {
    assert InOrder(cfg, moments[a]) && InOrder(cfg, moments[b]);
    SpendTo(cfg, moments, served, j, a, b);
    UnfinishedInSlice(cfg, moments[b], j);
    TimeFallsTo(cfg, moments, served, j, a, b);
    UnfinishedInSlice(cfg, moments[a], j);
  }

  /** A job in a queue without a positive slice keeps its priority until the next boost. */
  lemma NeverLowered(cfg: Config, m: Moment, q: int, m': Moment, j: nat)
    requires cfg.Ok() && Follows(cfg, m, q, m') && InOrder(cfg, m) && InOrder(cfg, m') && j < |m.job|
    requires !BoostDue(cfg, m.now) && m.job[j].currPri < |cfg.quantum| && cfg.quantum[m.job[j].currPri] < 1
    ensures |m'.job| == |m.job| && m'.job[j].currPri == m.job[j].currPri
  {
    var doing := RecordNext(cfg, m, q, m', j);
    if m.job[j].timeLeft != 0 {
      UnfinishedInSlice(cfg, m, j);
    }
  }

  // ----- Resetting the slice after an I/O

  function Work(r: Job): int {
    r.runTime - r.timeLeft
  }

  /** On top, with enough of the slice left to get to the next I/O. */
  predicate OnTop(cfg: Config, r: Job)
    requires |cfg.quantum| >= 1 && r.ioFreq > 0
  {
    r.currPri == cfg.Hi() && (r.timeLeft > 0 ==> r.ticksLeft >= cfg.quantum[cfg.Hi()] - Work(r) % r.ioFreq)
  }

  lemma NextRemainder(x: int, f: int)
    requires f > 0
    ensures (x + 1) % f == if x % f == f - 1 then 0 else x % f + 1
  {
    Split(x, f);
    assert (x / f + 1) * f == (x / f) * f + f;
    Divided(x / f + 1, 0, f);
    if x % f < f - 1 {
      Divided(x / f, x % f + 1, f);
    }
  }

  /** With the slice reset at every I/O it is never used up. */
  lemma OnTopTick(cfg: Config, r: Job, now: int)
    requires cfg.Ok() && cfg.stay && 1 <= r.ioFreq < cfg.quantum[cfg.Hi()] && OnTop(cfg, r) && r.timeLeft > 0
    ensures var r' := Executed(cfg, r, cfg.Hi(), now); r'.ioFreq == r.ioFreq && OnTop(cfg, r')
  {
    NextRemainder(Work(r), r.ioFreq);
    assert Work(Ticked(r, now)) == Work(r) + 1;
  }

  /** A tick leaves no job with less than no time left. */
  lemma TickHasTime(cfg: Config, m': Moment, j: nat, r: Job, q: nat, now: int)
    requires cfg.Ok() && InOrder(cfg, m') && j < |m'.job| && 0 <= now && q < |cfg.quantum|
    requires m'.job[j] == Executed(cfg, r, q, now)
    ensures r.timeLeft > 0
  {
    var where :| Placed(cfg, m'.queue, m'.job, m'.ioDone, m'.now, where);
    assert JobOk(cfg, m'.job[j], where[j], m'.now);
  }

  lemma OnTopNext(cfg: Config, m: Moment, q: int, m': Moment, j: nat)
    requires cfg.Ok() && Follows(cfg, m, q, m') && InOrder(cfg, m) && InOrder(cfg, m') && j < |m.job|
    requires cfg.stay && 1 <= m.job[j].ioFreq < cfg.quantum[cfg.Hi()] && OnTop(cfg, m.job[j])
    ensures |m'.job| == |m.job| && m'.job[j].ioFreq == m.job[j].ioFreq && OnTop(cfg, m'.job[j])
  {
    var doing := RecordNext(cfg, m, q, m', j);
    var r := Before(cfg, m, j).(doingIO := doing);
    NextRemainder(Work(r), r.ioFreq);
    assert OnTop(cfg, r);
    if m'.job[j] != r {
      TickHasTime(cfg, m', j, r, q, m.now);
      OnTopTick(cfg, r, m.now);
    }
  }

  lemma StartsOnTop(cfg: Config, jobs: seq<Spec>, m: Moment, j: nat)
    requires |cfg.quantum| >= 1 && Starting(cfg, jobs, m) && j < |jobs| && jobs[j].ioFreq > 0
    ensures |m.job| == |jobs| && m.job[j].ioFreq == jobs[j].ioFreq && OnTop(cfg, m.job[j])
  {
    assert m.job[j] == NewJob(cfg, jobs[j]);
  }

  lemma OnTopAt(cfg: Config, moments: seq<Moment>, served: seq<int>, j: nat, k: nat)
    requires cfg.Ok() && IsRun(cfg, moments, served) && AllInOrder(cfg, moments) && k < |served|
    requires j < |moments[k].job| && cfg.stay && 1 <= moments[k].job[j].ioFreq < cfg.quantum[cfg.Hi()]
    requires OnTop(cfg, moments[k].job[j])
    ensures |moments[k + 1].job| == |moments[k].job| && moments[k + 1].job[j].ioFreq == moments[k].job[j].ioFreq
    ensures OnTop(cfg, moments[k + 1].job[j])
  {
    assert TurnAt(cfg, moments, served, k) && InOrder(cfg, moments[k]) && InOrder(cfg, moments[k + 1]);
    OnTopNext(cfg, moments[k], served[k], moments[k + 1], j);
  }

  lemma {:induction false} OnTopTo(cfg: Config, moments: seq<Moment>, served: seq<int>, j: nat, k: nat)
    requires cfg.Ok() && IsRun(cfg, moments, served) && AllInOrder(cfg, moments) && k <= |served|
    requires j < |moments[0].job| && cfg.stay && 1 <= moments[0].job[j].ioFreq < cfg.quantum[cfg.Hi()]
    requires OnTop(cfg, moments[0].job[j])
    ensures |moments[k].job| == |moments[0].job| && moments[k].job[j].ioFreq == moments[0].job[j].ioFreq
    ensures OnTop(cfg, moments[k].job[j])
  {
    if k > 0 {
      OnTopTo(cfg, moments, served, j, k - 1);
      OnTopAt(cfg, moments, served, j, k - 1);
    }
  }

  /** With the option to reset the slice after an I/O, a job that issues one before the highest slice is used up is
      never lowered: it keeps the highest priority in every run. */
  lemma StaysOnTop(cfg: Config, jobs: seq<Spec>, moments: seq<Moment>, served: seq<int>, j: nat, k: nat)
    requires cfg.Ok() && IsRun(cfg, moments, served) && AllInOrder(cfg, moments) && Starting(cfg, jobs, moments[0])
    requires cfg.stay && j < |jobs| && 1 <= jobs[j].ioFreq < cfg.quantum[cfg.Hi()] && k <= |served|
    ensures |moments[k].job| == |jobs| && moments[k].job[j].currPri == cfg.Hi()
  {
    StartsOnTop(cfg, jobs, moments[0], j);
    OnTopTo(cfg, moments, served, j, k);
  }
}
