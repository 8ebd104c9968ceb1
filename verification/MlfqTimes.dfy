/**
 * What the multi-level feedback queue (related_info/ostep/ostep9-mlfq.py) reports about each job, and where a turn
 * leaves the job that ran: when it first ran, when it ended, and its place in the queues.
 */
module MlfqTimes {
  import opened Mlfq
  import opened MlfqRules

  // ----- The dates of a job

  /** What a turn that begins at time now does to a job's dates. */
  ghost predicate Dates(now: int, r: Job, r': Job) {
    r'.runTime == r.runTime && r.timeLeft - 1 <= r'.timeLeft <= r.timeLeft
    && (r.timeLeft == r.runTime && r'.timeLeft < r.timeLeft ==> r'.firstRun == now)
    && (r.timeLeft < r.runTime ==> r'.firstRun == r.firstRun)
    && (r.timeLeft == 1 && r'.timeLeft == 0 ==> r'.endTime == now + 1)
    && (r.timeLeft == 0 ==> r'.timeLeft == 0 && r'.endTime == r.endTime)
  }

  lemma TickDates(cfg: Config, r: Job, now: int, q: nat)
    requires q < |cfg.quantum| && r.timeLeft > 0 && (r.firstRun == -1 <==> r.timeLeft == r.runTime)
    ensures Dates(now, r, Executed(cfg, r, q, now))
  {
  }

  lemma FirstRunKnown(cfg: Config, m: Moment, j: nat)
    requires InOrder(cfg, m) && j < |m.job|
    ensures m.job[j].firstRun == -1 <==> m.job[j].timeLeft == m.job[j].runTime
  {
    var where :| Placed(cfg, m.queue, m.job, m.ioDone, m.now, where);
    assert JobOk(cfg, m.job[j], where[j], m.now);
  }

  lemma DatesNext(cfg: Config, m: Moment, q: int, m': Moment, j: nat)
    requires cfg.Ok() && Follows(cfg, m, q, m') && InOrder(cfg, m) && InOrder(cfg, m') && j < |m.job|
    ensures |m'.job| == |m.job| && Dates(m.now, m.job[j], m'.job[j])
  {
    var doing := RecordNext(cfg, m, q, m', j);
    var r := Before(cfg, m, j).(doingIO := doing);
    FirstRunKnown(cfg, m, j);
    if m'.job[j] != r {
      TickHasTime(cfg, m', j, r, q, m.now);
      TickDates(cfg, r, m.now, q);
    }
  }

  ghost predicate DatesAt(moments: seq<Moment>, j: nat, k: nat)
    requires k + 1 < |moments|
  {
    j < |moments[k].job| == |moments[k + 1].job| && Dates(moments[k].now, moments[k].job[j], moments[k + 1].job[j])
  }

  /** Job j's dates change in every turn as they should. */
  ghost predicate Dated(moments: seq<Moment>, j: nat) {
    moments != [] && j < |moments[0].job| && forall k :: 0 <= k < |moments| - 1 ==> DatesAt(moments, j, k)
  }

  lemma {:induction false} SameCount(cfg: Config, moments: seq<Moment>, served: seq<int>, k: nat)
    requires cfg.Ok() && IsRun(cfg, moments, served) && k <= |served|
    ensures |moments[k].job| == |moments[0].job|
  {
    if k > 0 {
      SameCount(cfg, moments, served, k - 1);
      assert TurnAt(cfg, moments, served, k - 1);
      TurnKeepsSpecs(cfg, moments[k - 1].queue, moments[k - 1].job, moments[k - 1].ioDone, moments[k - 1].now,
                     served[k - 1], moments[k].queue, moments[k].job, moments[k].ioDone);
    }
  }

  lemma RunDated(cfg: Config, moments: seq<Moment>, served: seq<int>, j: nat)
    requires cfg.Ok() && IsRun(cfg, moments, served) && AllInOrder(cfg, moments) && j < |moments[0].job|
    ensures Dated(moments, j)
  {
    forall k: nat | k < |served| ensures DatesAt(moments, j, k) {
      SameCount(cfg, moments, served, k);
      assert TurnAt(cfg, moments, served, k) && InOrder(cfg, moments[k]) && InOrder(cfg, moments[k + 1]);
      DatesNext(cfg, moments[k], served[k], moments[k + 1], j);
    }
  }

  /** Once a job has run and once it has ended, its dates stay. */
  lemma {:induction false} DatesStay(moments: seq<Moment>, j: nat, a: nat, b: nat)
    requires Dated(moments, j) && a <= b < |moments|
    ensures j < |moments[a].job| && j < |moments[b].job|
    ensures moments[b].job[j].runTime == moments[a].job[j].runTime
    ensures moments[b].job[j].timeLeft <= moments[a].job[j].timeLeft
    ensures moments[a].job[j].timeLeft < moments[a].job[j].runTime ==>
      moments[b].job[j].firstRun == moments[a].job[j].firstRun
    ensures moments[a].job[j].timeLeft == 0 ==>
      moments[b].job[j].timeLeft == 0 && moments[b].job[j].endTime == moments[a].job[j].endTime
    decreases b
  {
    if a < b {
      DatesStay(moments, j, a, b - 1);
      assert DatesAt(moments, j, b - 1);
    } else if b > 0 {
      assert DatesAt(moments, j, b - 1);
    }
  }

  /** Turn k is the one in which the work left of job j goes from v + 1 to v. */
  ghost predicate TicksTo(moments: seq<Moment>, j: nat, k: nat, v: int) {
    k + 1 < |moments| && j < |moments[k].job| && j < |moments[k + 1].job|
    && moments[k].job[j].timeLeft == v + 1 && moments[k + 1].job[j].timeLeft == v
  }

  /** The end time reported for a job is the clock at the end of the turn that did its last piece of work. */
  lemma EndTimeIs(cfg: Config, moments: seq<Moment>, served: seq<int>, j: nat, k: nat, b: nat)
    requires cfg.Ok() && IsRun(cfg, moments, served) && AllInOrder(cfg, moments) && j < |moments[0].job|
    requires TicksTo(moments, j, k, 0) && k < b < |moments|
    ensures j < |moments[b].job| && moments[b].job[j].timeLeft == 0
    ensures moments[b].job[j].endTime == moments[k + 1].now
  {
    RunDated(cfg, moments, served, j);
    assert DatesAt(moments, j, k) && TurnAt(cfg, moments, served, k);
    DatesStay(moments, j, k + 1, b);
  }

  /** The time reported for its first run is the clock at the start of the turn that did its first piece of work. */
  lemma FirstRunIs(cfg: Config, moments: seq<Moment>, served: seq<int>, j: nat, k: nat, b: nat)
    requires cfg.Ok() && IsRun(cfg, moments, served) && AllInOrder(cfg, moments) && j < |moments[0].job|
    requires k < b < |moments| && j < |moments[k].job| && TicksTo(moments, j, k, moments[k].job[j].runTime - 1)
    ensures j < |moments[b].job| && moments[b].job[j].firstRun == moments[k].now
  {
    RunDated(cfg, moments, served, j);
    assert DatesAt(moments, j, k);
    DatesStay(moments, j, k + 1, b);
  }

  /** As the work left goes down by one at a time, it passes every value in between. */
  lemma {:induction false} TickFound(moments: seq<Moment>, j: nat, v: int, b: nat) returns (k: nat)
    requires Dated(moments, j) && b < |moments| && j < |moments[b].job|
    requires moments[b].job[j].timeLeft <= v < moments[0].job[j].timeLeft
    ensures k < b && TicksTo(moments, j, k, v)
    decreases b
  {
    assert DatesAt(moments, j, b - 1);
    if moments[b - 1].job[j].timeLeft <= v {
      k := TickFound(moments, j, v, b - 1);
    } else {
      k := b - 1;
    }
  }

  /** What the simulation reports at its end about job j: the turns of its first and of its last piece of work. */
  lemma Reported(cfg: Config, jobs: seq<Spec>, moments: seq<Moment>, served: seq<int>, j: nat)
    returns (first: nat, last: nat)
    requires cfg.Ok() && IsRun(cfg, moments, served) && AllInOrder(cfg, moments) && Starting(cfg, jobs, moments[0])
    requires Over(moments[|served|]) && j < |jobs| && jobs[j].runTime >= 1
    ensures TicksTo(moments, j, first, jobs[j].runTime - 1) && TicksTo(moments, j, last, 0)
    ensures var r := moments[|served|].job; j < |r| && r[j].firstRun == first && r[j].endTime == last + 1
  {
    var n := |served|;
    RunDated(cfg, moments, served, j);
    DatesStay(moments, j, 0, n);
    assert moments[0].job[j] == NewJob(cfg, jobs[j]);
    first := TickFound(moments, j, jobs[j].runTime - 1, n);
    last := TickFound(moments, j, 0, n);
    DatesStay(moments, j, 0, first);
    FirstRunIs(cfg, moments, served, j, first, n);
    EndTimeIs(cfg, moments, served, j, last, n);
    TimePasses(cfg, moments, served, first);
    TimePasses(cfg, moments, served, last + 1);
  }

  /** The times reported for job j count from its start to the turns of its first and of its last piece of work. */
  ghost predicate TimesAre(jobs: seq<Spec>, moments: seq<Moment>, j: nat, response: int, turnaround: int)
    requires j < |jobs|
  {
    exists first: nat, last: nat :: CountFrom(jobs[j], moments, j, first, last, response, turnaround)
  }

  ghost predicate CountFrom(spec: Spec, moments: seq<Moment>, j: nat, first: nat, last: nat, response: int,
                            turnaround: int) {
    TicksTo(moments, j, first, spec.runTime - 1) && TicksTo(moments, j, last, 0)
    && response == first - spec.startTime && turnaround == last + 1 - spec.startTime
  }

  lemma RecordTimes(cfg: Config, jobs: seq<Spec>, moments: seq<Moment>, served: seq<int>, j: nat)
    requires cfg.Ok() && IsRun(cfg, moments, served) && AllInOrder(cfg, moments) && Starting(cfg, jobs, moments[0])
    requires Over(moments[|served|]) && j < |jobs| && jobs[j].runTime >= 1
    ensures j < |moments[|served|].job|
    ensures var r := moments[|served|].job[j];
      r.startTime == jobs[j].startTime
      && TimesAre(jobs, moments, j, r.firstRun - r.startTime, r.endTime - r.startTime)
  {
    var first, last := Reported(cfg, jobs, moments, served, j);
    SpecsTo(cfg, moments, served, |served|);
    assert moments[0].job[j] == NewJob(cfg, jobs[j]) && SameSpec(moments[0].job[j], moments[|served|].job[j]);
    var r := moments[|served|].job[j];
    assert CountFrom(jobs[j], moments, j, first, last, r.firstRun - r.startTime, r.endTime - r.startTime);
  }

  lemma {:induction false} SpecsTo(cfg: Config, moments: seq<Moment>, served: seq<int>, k: nat)
    requires cfg.Ok() && IsRun(cfg, moments, served) && k <= |served|
    ensures SameSpecs(moments[0].job, moments[k].job)
  {
    if k > 0 {
      SpecsTo(cfg, moments, served, k - 1);
      assert TurnAt(cfg, moments, served, k - 1);
      TurnKeepsSpecs(cfg, moments[k - 1].queue, moments[k - 1].job, moments[k - 1].ioDone, moments[k - 1].now,
                     served[k - 1], moments[k].queue, moments[k].job, moments[k].ioDone);
      SpecsChain(moments[0].job, moments[k - 1].job, moments[k].job);
    }
  }

  /** The simulation and its final statistics, job by job and summed up. */
  method Report(cfg: Config, jobs: seq<Spec>)
    returns (ok: bool, response: seq<int>, turnaround: seq<int>, responseSum: int, turnaroundSum: int,
             ghost moments: seq<Moment>, ghost served: seq<int>)
    requires cfg.Ok() && StartsInTime(jobs)
    ensures ok <==> forall i :: 0 <= i < |jobs| ==> jobs[i].runTime >= 1
    ensures ok ==> IsRun(cfg, moments, served) && Starting(cfg, jobs, moments[0]) && AllInOrder(cfg, moments)
    ensures ok ==> |response| == |turnaround| == |jobs|
    ensures ok ==> forall j :: 0 <= j < |jobs| ==> TimesAre(jobs, moments, j, response[j], turnaround[j])
    ensures ok ==> responseSum == Sum(response) && turnaroundSum == Sum(turnaround)
  {
    var time, job;
    response, turnaround, responseSum, turnaroundSum := [], [], 0, 0;
    ok, time, job, moments, served := Simulate(cfg, jobs);
    if !ok {
      return;
    }
    SpecsTo(cfg, moments, served, |served|);
    var i := 0;
    while i < |job|
      invariant 0 <= i <= |job| == |jobs| && |response| == |turnaround| == i
      invariant forall j :: 0 <= j < i ==> TimesAre(jobs, moments, j, response[j], turnaround[j])
      invariant responseSum == Sum(response) && turnaroundSum == Sum(turnaround)
    {
      RecordTimes(cfg, jobs, moments, served, i);
      var r, t := job[i].firstRun - job[i].startTime, job[i].endTime - job[i].startTime;
      SumMore(response, r);
      SumMore(turnaround, t);
      response, turnaround := response + [r], turnaround + [t];
      responseSum, turnaroundSum := responseSum + r, turnaroundSum + t;
      i := i + 1;
    }
  }

  function Sum(s: seq<int>): int {
    if s == [] then 0 else Sum(s[..|s| - 1]) + s[|s| - 1]
  }

  /** The sum is that of the parts, and of one number the number. */
  lemma {:induction false} SumJoin(s: seq<int>, t: seq<int>)
    ensures Sum(s + t) == Sum(s) + Sum(t)
    ensures |s| == 1 ==> Sum(s) == s[0]
    decreases |t|
  {
    if t == [] {
      assert s + t == s;
    } else {
      var last := |t| - 1;
      SumJoin(s, t[..last]);
      assert (s + t)[..|s + t| - 1] == s + t[..last];
    }
    assert |s| == 1 ==> s[..0] == [] && Sum([]) == 0;
  }

  lemma SumMore(s: seq<int>, x: int)
    ensures Sum(s + [x]) == Sum(s) + x
  {
    assert (s + [x])[..|s|] == s;
  }

  // ----- What a turn does to the other jobs

  /** With a boost every unfinished job that does not run in the turn gets the highest priority and a full slice;
      without one, or if finished, it keeps what it has. */
  lemma OthersKeep(cfg: Config, m: Moment, q: int, m': Moment, j: nat)
    requires cfg.Ok() && Follows(cfg, m, q, m') && InOrder(cfg, m) && InOrder(cfg, m') && j < |m.job|
    requires |m'.job| == |m.job| && m'.job[j].timeLeft == m.job[j].timeLeft
    ensures if cfg.boost > 0 && m.now > 0 && m.now % cfg.boost == 0 && m.job[j].timeLeft > 0 then
              m'.job[j].currPri == cfg.Hi() && m'.job[j].ticksLeft == cfg.quantum[cfg.Hi()]
            else m'.job[j].currPri == m.job[j].currPri && m'.job[j].ticksLeft == m.job[j].ticksLeft
  {
    var doing := RecordNext(cfg, m, q, m', j);
    var r := Before(cfg, m, j).(doingIO := doing);
    assert m.now >= 0 && r.timeLeft == m.job[j].timeLeft;
    if 0 <= q < |cfg.quantum| {
      TickWorks(cfg, r, q, m.now);
    }
    assert m'.job[j] == r;
  }

  lemma TickWorks(cfg: Config, r: Job, q: nat, now: int)
    requires q < |cfg.quantum|
    ensures Executed(cfg, r, q, now).timeLeft == r.timeLeft - 1
  {
  }

  /** The queues above the one served are empty, and all are in an idle turn. */
  lemma HighestServed(cfg: Config, m: Moment, q: int, m': Moment)
    requires cfg.Ok() && Follows(cfg, m, q, m') && InOrder(cfg, m)
    ensures forall p :: q < p < |m'.queue| && 0 <= p ==> m'.queue[p] == []
  {
    var queue1, job1: seq<Job> :| BoostIs(cfg, m.now, m.queue, m.job, queue1, job1)
                        && RestIs(cfg, queue1, job1, m.ioDone, m.now, q, m'.queue, m'.job, m'.ioDone);
    var (queue2, job2) := Arrivals(cfg, queue1, job1, Due(m.ioDone, m.now));
    assert Highest(queue2, q);
  }

  // ----- Where a turn leaves the job that ran

  /** The queues and records after the events of the turn in which job j ran. */
  lemma TickOf(cfg: Config, m: Moment, q: int, m': Moment, j: nat) returns (queue: seq<seq<nat>>, r: Job)
    requires cfg.Ok() && Follows(cfg, m, q, m') && InOrder(cfg, m) && j < |m.job| == |m'.job|
    requires m'.job[j].timeLeft != m.job[j].timeLeft
    ensures r == Before(cfg, m, j).(doingIO := r.doingIO)
    ensures 0 <= q < |queue| == |cfg.quantum| && queue[q] != [] && queue[q][0] == j && r.currPri == q
    ensures m'.job[j] == Executed(cfg, r, q, m.now)
    ensures MovedTo(queue, m.ioDone, q, j, Destination(cfg, Ticked(r, m.now), q, m.now + 1), Stays(Ticked(r, m.now)),
                    m'.queue, m'.ioDone)
  {
    var queue1, job1: seq<Job> :| BoostIs(cfg, m.now, m.queue, m.job, queue1, job1)
                        && RestIs(cfg, queue1, job1, m.ioDone, m.now, q, m'.queue, m'.job, m'.ioDone);
    BoostMatched(cfg, m, queue1, job1, j);
    r := RanFrom(cfg, queue1, job1, m.ioDone, m.now, q, m'.queue, m'.job, m'.ioDone, j);
    queue := Arrivals(cfg, queue1, job1, Due(m.ioDone, m.now)).0;
  }

  lemma RanFrom(cfg: Config, queue: seq<seq<nat>>, job: seq<Job>, ioDone: Events, now: int, q: int,
                queue': seq<seq<nat>>, job': seq<Job>, ioDone': Events, j: nat) returns (r: Job)
    requires Matched(queue, job) && RestIs(cfg, queue, job, ioDone, now, q, queue', job', ioDone') && j < |job|
    requires |job'| == |job| && job'[j].timeLeft != job[j].timeLeft
    ensures r == job[j].(doingIO := r.doingIO)
    ensures var queue2 := Arrivals(cfg, queue, job, Due(ioDone, now)).0;
      0 <= q < |queue2| == |cfg.quantum| && queue2[q] != [] && queue2[q][0] == j && r.currPri == q
      && job'[j] == Executed(cfg, r, q, now)
      && MovedTo(queue2, ioDone, q, j, Destination(cfg, Ticked(r, now), q, now + 1), Stays(Ticked(r, now)),
                 queue', ioDone')
  {
    ArrivalsMatched(cfg, queue, job, Due(ioDone, now), j);
    var (queue2, job2) := Arrivals(cfg, queue, job, Due(ioDone, now));
    r := job2[j];
    if q != -1 {
      assert HasPriority(job2, queue2[q][0], q);
    }
  }

  /** Job j issues an I/O when it has done so much work, unless that was all of it. */
  predicate DoesIO(r: Job) {
    r.timeLeft != 0 && r.ioFreq > 0 && (r.runTime - r.timeLeft) % r.ioFreq == 0
  }

  ghost predicate InNoQueue(m: Moment, j: nat) {
    forall q :: 0 <= q < |m.queue| ==> j !in m.queue[q]
  }

  /** The ticks that a job had left in its slice when it was chosen. */
  function TicksBefore(cfg: Config, m: Moment, j: nat): int
    requires cfg.Ok() && j < |m.job|
  {
    if BoostDue(cfg, m.now) then cfg.quantum[cfg.Hi()] else m.job[j].ticksLeft
  }

  ghost predicate IsLastEvent(ioDone: Events, t: int, j: nat) {
    t in ioDone && ioDone[t] != [] && ioDone[t][|ioDone[t]| - 1] == j
  }

  /** Job j of queue q is at the end of the queue below, if its slice is used up, and else at the head of q. */
  ghost predicate StandsIn(queue: seq<seq<nat>>, p: nat, q: nat, j: nat, usedUp: bool) {
    p < |queue| && queue[p] != []
    && if usedUp then p == (if q > 0 then q - 1 else 0) && queue[p][|queue[p]| - 1] == j
       else p == q && queue[p][0] == j
  }

  /** A job that has ended or issued an I/O is in no queue, and the I/O will be done after ioTime; one that has used up
      its slice is the last of the next queue below; any other one stays at the head of its queue. */
  lemma TickPlaces(cfg: Config, m: Moment, q: int, m': Moment, j: nat)
    requires cfg.Ok() && Follows(cfg, m, q, m') && InOrder(cfg, m) && InOrder(cfg, m') && j < |m.job| == |m'.job|
    requires m'.job[j].timeLeft < m.job[j].timeLeft
    ensures 0 <= q < |m'.queue| == |cfg.quantum|
    ensures m'.job[j].timeLeft == 0 || DoesIO(m'.job[j]) ==> InNoQueue(m', j)
    ensures DoesIO(m'.job[j]) ==> IsLastEvent(m'.ioDone, m'.now + cfg.ioTime, j)
    ensures m'.job[j].timeLeft != 0 && !DoesIO(m'.job[j]) ==>
      StandsIn(m'.queue, m'.job[j].currPri, q, j, TicksBefore(cfg, m, j) == 1)
  {
    var queue, r := TickOf(cfg, m, q, m', j);
    TickHasTime(cfg, m', j, r, q, m.now);
    assert r.ticksLeft == TicksBefore(cfg, m, j);
    TickMoves(cfg, queue, m.ioDone, m.now, q, j, r, m'.job[j], m'.queue, m'.ioDone);
    if m'.job[j].timeLeft == 0 || DoesIO(m'.job[j]) {
      NotQueued(cfg, m', j);
    }
  }

  lemma TickMoves(cfg: Config, queue: seq<seq<nat>>, ioDone: Events, now: int, q: nat, j: nat, r: Job, r': Job,
                  queue': seq<seq<nat>>, ioDone': Events)
    requires q < |queue| == |cfg.quantum| && queue[q] != [] && queue[q][0] == j && r.currPri == q
    requires r' == Executed(cfg, r, q, now) && now >= 0
    requires MovedTo(queue, ioDone, q, j, Destination(cfg, Ticked(r, now), q, now + 1), Stays(Ticked(r, now)),
                     queue', ioDone')
    ensures |queue'| == |cfg.quantum| && (DoesIO(r') ==> r'.doingIO) && r'.firstRun != -1
    ensures DoesIO(r') ==> IsLastEvent(ioDone', now + 1 + cfg.ioTime, j)
    ensures r'.timeLeft != 0 && !DoesIO(r') ==> StandsIn(queue', r'.currPri, q, j, r.ticksLeft == 1)
  {
    assert DoesIO(r') == (r'.timeLeft != 0 && IssuesIO(Ticked(r, now)));
  }

  lemma NotQueued(cfg: Config, m: Moment, j: nat)
    requires InOrder(cfg, m) && j < |m.job| && (m.job[j].timeLeft == 0 || m.job[j].doingIO) && m.job[j].firstRun != -1
    ensures InNoQueue(m, j)
  {
    var where :| Placed(cfg, m.queue, m.job, m.ioDone, m.now, where);
    assert JobOk(cfg, m.job[j], where[j], m.now);
    forall q: nat | q < |m.queue| ensures j !in m.queue[q] {
      assert Holds(m.queue[q], where, Queued(q));
    }
  }

  // ----- The order of arrivals

  function Comer(job: seq<Job>, e: nat, q: nat): seq<nat> {
    if e < |job| && job[e].currPri == q then [e] else []
  }

  /** The events' jobs that belong to queue q, in their order. */
  function Comers(job: seq<Job>, events: seq<nat>, q: nat): seq<nat> {
    if events == [] then []
    else Comer(job, events[0], q) + Comers(job, events[1..], q)
  }

  /** The same, the last one first. */
  function Stacked(job: seq<Job>, events: seq<nat>, q: nat): seq<nat> {
    if events == [] then []
    else Stacked(job, events[1..], q) + Comer(job, events[0], q)
  }

  lemma {:induction false} SameComers(job: seq<Job>, job': seq<Job>, events: seq<nat>, q: nat)
    requires |job'| == |job| && forall j :: 0 <= j < |job| ==> job'[j].currPri == job[j].currPri
    ensures Comers(job', events, q) == Comers(job, events, q) && Stacked(job', events, q) == Stacked(job, events, q)
  {
    if events != [] {
      SameComers(job, job', events[1..], q);
    }
  }

  lemma ArrivedIn(cfg: Config, queue: seq<seq<nat>>, job: seq<Job>, e: nat, q: nat)
    requires q < |queue|
    ensures var (queue', job') := Arrived(cfg, queue, job, e);
      |queue'| == |queue| && |job'| == |job| && (forall j :: 0 <= j < |job| ==> job'[j].currPri == job[j].currPri)
      && queue'[q] == if cfg.iobump then Comer(job, e, q) + queue[q] else queue[q] + Comer(job, e, q)
  {
  }

  lemma Regroup<T>(a: seq<T>, b: seq<T>, c: seq<T>)
    ensures a + (b + c) == a + b + c
  {
  }

  lemma Lines(job: seq<Job>, events: seq<nat>, q: nat, queue: seq<seq<nat>>, queue1: seq<seq<nat>>, bump: bool)
    requires events != [] && q < |queue| == |queue1|
    requires queue1[q] == if bump then Comer(job, events[0], q) + queue[q] else queue[q] + Comer(job, events[0], q)
    ensures bump ==> Stacked(job, events[1..], q) + queue1[q] == Stacked(job, events, q) + queue[q]
    ensures !bump ==> queue1[q] + Comers(job, events[1..], q) == queue[q] + Comers(job, events, q)
  {
    Regroup(Stacked(job, events[1..], q), Comer(job, events[0], q), queue[q]);
    Regroup(queue[q], Comer(job, events[0], q), Comers(job, events[1..], q));
  }

  /** Jobs whose events are due line up behind those in their queue, one after the other; with the option to bump them
      each goes in front of all others. */
  lemma {:induction false} ArrivalsOrder(cfg: Config, queue: seq<seq<nat>>, job: seq<Job>, events: seq<nat>, q: nat)
    requires q < |queue|
    ensures |Arrivals(cfg, queue, job, events).0| == |queue|
    ensures Arrivals(cfg, queue, job, events).0[q]
         == if cfg.iobump then Stacked(job, events, q) + queue[q] else queue[q] + Comers(job, events, q)
    decreases |events|
  {
    if events != [] {
      var (queue1, job1) := Arrived(cfg, queue, job, events[0]);
      ArrivedIn(cfg, queue, job, events[0], q);
      ArrivalsOrder(cfg, queue1, job1, events[1..], q);
      SameComers(job, job1, events[1..], q);
      Lines(job, events, q, queue, queue1, cfg.iobump);
    }
  }
}
