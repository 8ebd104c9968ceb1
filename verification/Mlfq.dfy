/** The multi-level feedback queue simulator.

    One turn of the loop boosts, delivers the events due, and runs the head of the
    highest nonempty queue for one tick (or idles).  `where` says in which one place
    each job is; `Placed` ties it to the queues, the event table and the job records. */
module Mlfq {

  datatype Job = Job(currPri: nat, ticksLeft: int, startTime: int, runTime: int, timeLeft: int, ioFreq: int,
                     doingIO: bool, firstRun: int, endTime: int)

  /** quantum[q] is the time slice of queue q; the last queue is the highest. */
  datatype Config = Config(quantum: seq<int>, boost: int, ioTime: int, stay: bool, iobump: bool) {
    function Hi(): int { |quantum| - 1 }

    predicate Ok() {
      |quantum| >= 1 && ioTime >= 0
    }
  }

  datatype Place = Finished | Queued(q: nat) | Pending(t: int)

  type Events = map<int, seq<nat>>

  ghost predicate NoDuplicates(s: seq<nat>) {
    forall i, j :: 0 <= i < j < |s| ==> s[i] != s[j]
  }

  // ----- Every job is in one place

  ghost predicate JobOk(cfg: Config, job: Job, place: Place, now: int) {
    job.timeLeft <= job.runTime &&
    (job.firstRun == -1 <==> job.timeLeft == job.runTime) && (job.firstRun != -1 ==> job.startTime <= job.firstRun) &&
    match place
    case Finished =>
      job.timeLeft == 0 < job.runTime && job.firstRun != -1 && job.startTime + job.runTime <= job.endTime
    case Queued(q) =>
      Runnable(cfg, job) && job.currPri == q && !job.doingIO && job.startTime + job.runTime - job.timeLeft <= now
    case Pending(t) =>
      Runnable(cfg, job) && job.startTime + job.runTime - job.timeLeft <= t
  }

  /** Without time left a job can only wait for its first tick, in the highest queue; that tick ends the program. */
  ghost predicate Runnable(cfg: Config, job: Job) {
    (job.timeLeft > 0 || (job.firstRun == -1 && job.currPri == cfg.Hi()))
    && job.currPri < |cfg.quantum| && InSlice(cfg, job)
  }

  /** No job has more ticks left than its queue's slice, and one that can be served has at least one exactly if the
      slice is positive. */
  ghost predicate InSlice(cfg: Config, job: Job)
    requires job.currPri < |cfg.quantum|
  {
    var slice := cfg.quantum[job.currPri];
    job.ticksLeft <= slice && (job.ticksLeft >= 1 <==> slice >= 1)
  }

  /** The list holds exactly the jobs at the given place, each once. */
  ghost predicate Holds(list: seq<nat>, where: seq<Place>, place: Place) {
    NoDuplicates(list) && forall j: nat :: j in list <==> j < |where| && where[j] == place
  }

  ghost predicate QueuesOk(queue: seq<seq<nat>>, where: seq<Place>) {
    forall q: nat :: q < |queue| ==> Holds(queue[q], where, Queued(q))
  }

  ghost predicate EventsOk(ioDone: Events, where: seq<Place>, now: int) {
    (forall t :: t in ioDone && now <= t ==> Holds(ioDone[t], where, Pending(t))) &&
    (forall j :: 0 <= j < |where| && where[j].Pending? ==> where[j].t in ioDone && now <= where[j].t)
  }

  ghost predicate JobsOk(cfg: Config, job: seq<Job>, where: seq<Place>, now: int) {
    |where| == |job| && forall j :: 0 <= j < |job| ==> JobOk(cfg, job[j], where[j], now)
  }

  ghost predicate Placed(cfg: Config, queue: seq<seq<nat>>, job: seq<Job>, ioDone: Events, now: int,
                         where: seq<Place>) {
    |queue| == |cfg.quantum| && JobsOk(cfg, job, where, now) && QueuesOk(queue, where) && EventsOk(ioDone, where, now)
  }

  // ----- Sums and counts

  function Positive(x: int): nat {
    if x > 0 then x else 0
  }

  ghost function TimeLeft(job: seq<Job>): nat {
    if job == [] then 0 else TimeLeft(job[..|job| - 1]) + Positive(job[|job| - 1].timeLeft)
  }

  ghost function RunTime(job: seq<Job>): nat {
    if job == [] then 0 else RunTime(job[..|job| - 1]) + Positive(job[|job| - 1].runTime)
  }

  /** The jobs are those that were given: their start times, run times and I/O frequencies never change. */
  ghost predicate SameSpecs(job: seq<Job>, job': seq<Job>) {
    |job'| == |job| && forall j :: 0 <= j < |job| ==> SameSpec(job[j], job'[j])
  }

  ghost predicate SameSpec(r: Job, r': Job) {
    r'.startTime == r.startTime && r'.runTime == r.runTime && r'.ioFreq == r.ioFreq
  }

  lemma {:induction false} SameRunTime(job: seq<Job>, job': seq<Job>)
    requires SameSpecs(job, job')
    ensures RunTime(job') == RunTime(job)
  {
    if job != [] {
      var n := |job| - 1;
      assert SameSpec(job[n], job'[n]);
      forall j | 0 <= j < n ensures SameSpec(job[..n][j], job'[..n][j]) {
        assert SameSpec(job[j], job'[j]);
      }
      SameRunTime(job[..n], job'[..n]);
    }
  }

  lemma {:induction false} SumsAfter(job: seq<Job>, j: nat, r: Job)
    requires j < |job| && r.runTime == job[j].runTime
    ensures TimeLeft(job[j := r]) == TimeLeft(job) - Positive(job[j].timeLeft) + Positive(r.timeLeft)
    ensures RunTime(job[j := r]) == RunTime(job)
  {
    var init := job[..|job| - 1];
    if j == |job| - 1 {
      assert job[j := r][..|job| - 1] == init;
    } else {
      SumsAfter(init, j, r);
      assert job[j := r][..|job| - 1] == init[j := r];
    }
  }

  ghost function Done(where: seq<Place>): nat {
    if where == [] then 0 else Done(where[..|where| - 1]) + (if where[|where| - 1].Finished? then 1 else 0)
  }

  lemma {:induction false} DoneAfter(where: seq<Place>, j: nat, p: Place)
    requires j < |where|
    ensures Done(where[j := p]) == Done(where) - (if where[j].Finished? then 1 else 0) + (if p.Finished? then 1 else 0)
  {
    var init := where[..|where| - 1];
    if j == |where| - 1 {
      assert where[j := p][..|where| - 1] == init;
    } else {
      DoneAfter(init, j, p);
      assert where[j := p][..|where| - 1] == init[j := p];
    }
  }

  /** Not all jobs are counted as finished while one is not. */
  lemma {:induction false} DoneAll(where: seq<Place>)
    ensures Done(where) <= |where|
    ensures Done(where) == |where| <==> forall j :: 0 <= j < |where| ==> where[j].Finished?
  {
    if where != [] {
      DoneAll(where[..|where| - 1]);
      assert forall j :: 0 <= j < |where| - 1 ==> where[..|where| - 1][j] == where[j];
    }
  }

  // ----- Moving one job

  /** Taking the head of queue q away from it, to a place that is no queue. */
  lemma LeaveQueue(queue: seq<seq<nat>>, where: seq<Place>, q: nat, p: Place)
    requires QueuesOk(queue, where) && q < |queue| && queue[q] != [] && !p.Queued?
    ensures queue[q][0] < |where| && where[queue[q][0]] == Queued(q)
    ensures QueuesOk(queue[q := queue[q][1..]], where[queue[q][0] := p])
  {
    var j := queue[q][0];
    assert Holds(queue[q], where, Queued(q)) && j in queue[q];
    var where' := where[j := p];
    var queue' := queue[q := queue[q][1..]];
    forall x: nat | x < |queue'| ensures Holds(queue'[x], where', Queued(x)) {
      assert Holds(queue[x], where, Queued(x));
      if x == q {
        assert queue[q] == [j] + queue[q][1..];
        assert forall k :: k in queue[q][1..] <==> k in queue[q] && k != j;
      }
    }
  }

  /** A job that is in no queue joins queue q at its end or at its front. */
  lemma JoinQueue(queue: seq<seq<nat>>, where: seq<Place>, q: nat, j: nat, list: seq<nat>)
    requires QueuesOk(queue, where) && q < |queue| && j < |where| && !where[j].Queued?
    requires list == queue[q] + [j] || list == [j] + queue[q]
    ensures QueuesOk(queue[q := list], where[j := Queued(q)])
  {
    var queue', where' := queue[q := list], where[j := Queued(q)];
    forall x: nat | x < |queue'| ensures Holds(queue'[x], where', Queued(x)) {
      assert Holds(queue[x], where, Queued(x));
    }
  }

  /** Events are not affected by a job that was not and is not pending. */
  lemma EventsApart(ioDone: Events, where: seq<Place>, now: int, j: nat, p: Place)
    requires EventsOk(ioDone, where, now) && j < |where| && !where[j].Pending? && !p.Pending?
    ensures EventsOk(ioDone, where[j := p], now)
  {
    var where' := where[j := p];
    forall t | t in ioDone && now <= t ensures Holds(ioDone[t], where', Pending(t)) {
      assert Holds(ioDone[t], where, Pending(t));
    }
  }

  function WithEvent(ioDone: Events, t: int, j: nat): Events {
    ioDone[t := (if t in ioDone then ioDone[t] else []) + [j]]
  }

  /** A job that was not pending gets one event. */
  lemma EventAdded(ioDone: Events, where: seq<Place>, now: int, j: nat, t: int)
    requires EventsOk(ioDone, where, now) && j < |where| && !where[j].Pending? && now <= t
    ensures EventsOk(WithEvent(ioDone, t, j), where[j := Pending(t)], now)
  {
    var where', ioDone' := where[j := Pending(t)], WithEvent(ioDone, t, j);
    forall x | x in ioDone' && now <= x ensures Holds(ioDone'[x], where', Pending(x)) {
      if x in ioDone {
        assert Holds(ioDone[x], where, Pending(x));
      } else {
        assert forall k :: 0 <= k < |where| ==> where[k] != Pending(x);
      }
    }
  }

  /** One job changes its record and its place, and time may pass. */
  lemma JobsAfter(cfg: Config, job: seq<Job>, where: seq<Place>, now: int, now': int, j: nat, r: Job, p: Place)
    requires JobsOk(cfg, job, where, now) && now <= now' && j < |job| && JobOk(cfg, r, p, now')
    ensures JobsOk(cfg, job[j := r], where[j := p], now')
  {
    var job', where' := job[j := r], where[j := p];
    forall k | 0 <= k < |job| ensures JobOk(cfg, job'[k], where'[k], now') {
      assert JobOk(cfg, job[k], where[k], now);
    }
  }

  // ----- Delivering the events that are due

  /** The state while the events of time `now` are being delivered; `rest` are still due. */
  ghost predicate Delivering(cfg: Config, queue: seq<seq<nat>>, job: seq<Job>, ioDone: Events, now: int,
                             where: seq<Place>, rest: seq<nat>)
  {
    |queue| == |cfg.quantum| && JobsOk(cfg, job, where, now) && QueuesOk(queue, where) &&
    (forall t :: t in ioDone && now < t ==> Holds(ioDone[t], where, Pending(t))) &&
    (forall j :: 0 <= j < |where| && where[j].Pending? ==> where[j].t in ioDone && now <= where[j].t) &&
    Holds(rest, where, Pending(now))
  }

  lemma DeliverOne(cfg: Config, queue: seq<seq<nat>>, job: seq<Job>, ioDone: Events, now: int,
                   where: seq<Place>, rest: seq<nat>, q: nat, list: seq<nat>)
    requires Delivering(cfg, queue, job, ioDone, now, where, rest) && rest != []
    requires rest[0] < |job| && q == job[rest[0]].currPri
    requires q < |queue| && (list == queue[q] + [rest[0]] || list == [rest[0]] + queue[q])
    ensures var j := rest[0];
      Delivering(cfg, queue[q := list], job[j := job[j].(doingIO := false)], ioDone, now, where[j := Queued(q)],
                 rest[1..])
  {
    var j := rest[0];
    assert j in rest && where[j] == Pending(now);
    assert JobOk(cfg, job[j], where[j], now);
    JoinQueue(queue, where, q, j, list);
    JobsAfter(cfg, job, where, now, now, j, job[j].(doingIO := false), Queued(q));
    var where' := where[j := Queued(q)];
    forall t | t in ioDone && now < t ensures Holds(ioDone[t], where', Pending(t)) {
      assert Holds(ioDone[t], where, Pending(t));
    }
    assert rest == [j] + rest[1..];
    assert forall x: nat :: x in rest[1..] <==> x in rest && x != j;
  }

  lemma NextDelivered(cfg: Config, queue: seq<seq<nat>>, job: seq<Job>, ioDone: Events, now: int, where: seq<Place>,
                      rest: seq<nat>)
    requires cfg.Ok() && Delivering(cfg, queue, job, ioDone, now, where, rest) && rest != []
    ensures rest[0] < |job| && rest[0] < |where| && job[rest[0]].currPri < |queue|
    ensures var j := rest[0]; var (queue', job') := Arrived(cfg, queue, job, j);
      var where' := where[j := Queued(job[j].currPri)];
      Delivering(cfg, queue', job', ioDone, now, where', rest[1..])
      && TimeLeft(job') == TimeLeft(job) && RunTime(job') == RunTime(job) && Done(where') == Done(where)
  {
    FirstDue(cfg, queue, job, ioDone, now, where, rest);
    var j := rest[0];
    var q := job[j].currPri;
    DeliverOne(cfg, queue, job, ioDone, now, where, rest, q, if !cfg.iobump then queue[q] + [j] else [j] + queue[q]);
    ArrivalSums(job, where, j, q);
  }

  lemma ArrivalSums(job: seq<Job>, where: seq<Place>, j: nat, q: nat)
    requires j < |job| == |where| && !where[j].Finished?
    ensures TimeLeft(job[j := job[j].(doingIO := false)]) == TimeLeft(job)
    ensures RunTime(job[j := job[j].(doingIO := false)]) == RunTime(job)
    ensures Done(where[j := Queued(q)]) == Done(where)
  {
    SumsAfter(job, j, job[j].(doingIO := false));
    DoneAfter(where, j, Queued(q));
  }

  // ----- Boosting

  /** The jobs of the queues below k, lowest queue first. */
  ghost function Lower(queue: seq<seq<nat>>, k: nat): seq<nat>
    requires k <= |queue|
  {
    if k == 0 then [] else Lower(queue, k - 1) + queue[k - 1]
  }

  lemma {:induction false} LowerHolds(queue: seq<seq<nat>>, where: seq<Place>, k: nat)
    requires QueuesOk(queue, where) && k <= |queue|
    ensures NoDuplicates(Lower(queue, k))
    ensures forall j: nat :: j in Lower(queue, k) <==> j < |where| && where[j].Queued? && where[j].q < k
  {
    if k > 0 {
      LowerHolds(queue, where, k - 1);
      assert Holds(queue[k - 1], where, Queued(k - 1));
      var low, top := Lower(queue, k - 1), queue[k - 1];
      forall x, y | 0 <= x < y < |low + top| ensures (low + top)[x] != (low + top)[y] {
        if x < |low| <= y {
          assert low[x] in low && top[y - |low|] in top;
        }
      }
    }
  }

  /** The queues after a boost: everything in the highest one. */
  ghost predicate Boosted(queue: seq<seq<nat>>, queue': seq<seq<nat>>) {
    |queue| == |queue'| > 0 &&
    queue'[|queue| - 1] == queue[|queue| - 1] + Lower(queue, |queue| - 1) &&
    forall q :: 0 <= q < |queue| - 1 ==> queue'[q] == []
  }

  /** Only the queues below q have been moved. */
  ghost predicate BoostedTo(queue: seq<seq<nat>>, queue': seq<seq<nat>>, q: nat) {
    q < |queue| == |queue'| &&
    queue'[|queue| - 1] == queue[|queue| - 1] + Lower(queue, q) &&
    (forall x :: 0 <= x < q ==> queue'[x] == []) &&
    forall x :: q <= x < |queue| - 1 ==> queue'[x] == queue[x]
  }

  lemma BoostStep(queue: seq<seq<nat>>, queue': seq<seq<nat>>, q: nat)
    requires BoostedTo(queue, queue', q) && q < |queue| - 1
    ensures queue'[q] == queue[q]
    ensures BoostedTo(queue, queue'[|queue| - 1 := queue'[|queue| - 1] + queue'[q]][q := []], q + 1)
  {
    assert Lower(queue, q + 1) == Lower(queue, q) + queue[q];
  }

  function Lifted(where: seq<Place>, hi: nat): (r: seq<Place>)
    ensures |r| == |where|
  {
    seq(|where|, j requires 0 <= j < |where| => if where[j].Queued? then Queued(hi) else where[j])
  }

  lemma BoostQueues(queue: seq<seq<nat>>, queue': seq<seq<nat>>, where: seq<Place>)
    requires QueuesOk(queue, where) && Boosted(queue, queue')
    requires forall j :: 0 <= j < |where| && where[j].Queued? ==> where[j].q < |queue|
    ensures QueuesOk(queue', Lifted(where, |queue| - 1))
  {
    var hi := |queue| - 1;
    LowerHolds(queue, where, hi);
    assert Holds(queue[hi], where, Queued(hi));
    var where', topQueue, low := Lifted(where, hi), queue[hi], Lower(queue, hi);
    forall x, y | 0 <= x < y < |topQueue + low| ensures (topQueue + low)[x] != (topQueue + low)[y] {
      if x < |topQueue| <= y {
        assert topQueue[x] in topQueue && low[y - |topQueue|] in low;
      }
    }
    forall q: nat | q < |queue'| ensures Holds(queue'[q], where', Queued(q)) {
      assert q < hi ==> forall j :: 0 <= j < |where| ==> where'[j] != Queued(q);
    }
  }

  lemma BoostEvents(ioDone: Events, where: seq<Place>, now: int, hi: nat)
    requires EventsOk(ioDone, where, now)
    ensures EventsOk(ioDone, Lifted(where, hi), now)
  {
    var where' := Lifted(where, hi);
    forall t | t in ioDone && now <= t ensures Holds(ioDone[t], where', Pending(t)) {
      assert Holds(ioDone[t], where, Pending(t));
    }
  }

  /** The record of a job after a boost. */
  function BoostJob(cfg: Config, job: Job): Job
    requires cfg.Ok()
  {
    if job.timeLeft > 0 then job.(currPri := cfg.Hi(), ticksLeft := cfg.quantum[cfg.Hi()]) else job
  }

  lemma BoostJobs(cfg: Config, job: seq<Job>, job': seq<Job>, where: seq<Place>, now: int)
    requires cfg.Ok() && JobsOk(cfg, job, where, now) && |job'| == |job|
    requires forall j :: 0 <= j < |job| ==> job'[j] == BoostJob(cfg, job[j])
    ensures JobsOk(cfg, job', Lifted(where, cfg.Hi()), now)
    ensures TimeLeft(job') == TimeLeft(job) && RunTime(job') == RunTime(job)
    ensures Done(Lifted(where, cfg.Hi())) == Done(where)
  {
    forall j | 0 <= j < |job| ensures JobOk(cfg, job'[j], Lifted(where, cfg.Hi())[j], now) {
      assert JobOk(cfg, job[j], where[j], now);
    }
    SameSums(job, job');
    SameDone(where, Lifted(where, cfg.Hi()));
  }

  lemma BoostKeeps(cfg: Config, queue: seq<seq<nat>>, queue': seq<seq<nat>>, job: seq<Job>, job': seq<Job>,
                   ioDone: Events, now: int, where: seq<Place>)
    requires cfg.Ok() && Placed(cfg, queue, job, ioDone, now, where) && Boosted(queue, queue') && |job'| == |job|
    requires forall j :: 0 <= j < |job| ==> job'[j] == BoostJob(cfg, job[j])
    ensures Placed(cfg, queue', job', ioDone, now, Lifted(where, cfg.Hi()))
    ensures TimeLeft(job') == TimeLeft(job) && RunTime(job') == RunTime(job)
    ensures Done(Lifted(where, cfg.Hi())) == Done(where)
  {
    QueuedBelow(cfg, job, where, now);
    BoostQueues(queue, queue', where);
    BoostEvents(ioDone, where, now, cfg.Hi());
    BoostJobs(cfg, job, job', where, now);
  }

  lemma {:induction false} SameSums(job: seq<Job>, job': seq<Job>)
    requires |job'| == |job|
    requires forall j :: 0 <= j < |job| ==> job'[j].timeLeft == job[j].timeLeft && job'[j].runTime == job[j].runTime
    ensures TimeLeft(job') == TimeLeft(job) && RunTime(job') == RunTime(job)
  {
    if job != [] {
      SameSums(job[..|job| - 1], job'[..|job| - 1]);
    }
  }

  lemma {:induction false} SameDone(where: seq<Place>, where': seq<Place>)
    requires |where'| == |where| && forall j :: 0 <= j < |where| ==> (where'[j].Finished? <==> where[j].Finished?)
    ensures Done(where') == Done(where)
  {
    if where != [] {
      SameDone(where[..|where| - 1], where'[..|where| - 1]);
    }
  }

  // ----- One turn as a relation between values

  /** The record of a job after one tick, before anything that follows from it. */
  function Ticked(r: Job, now: int): Job {
    r.(timeLeft := r.timeLeft - 1, ticksLeft := r.ticksLeft - 1,
       firstRun := if r.firstRun == -1 then now else r.firstRun)
  }

  predicate IssuesIO(r: Job) {
    r.ioFreq > 0 && (r.runTime - r.timeLeft) % r.ioFreq == 0
  }

  function Below(q: nat): nat { if q > 0 then q - 1 else q }

  /** The record of a job of queue q after a tick that did not finish it. */
  function Rescheduled(cfg: Config, r: Job, q: nat): Job
    requires q < |cfg.quantum|
  {
    var r1 := if !IssuesIO(r) then r
              else r.(doingIO := true, ticksLeft := if cfg.stay then cfg.quantum[q] else r.ticksLeft);
    if r.ticksLeft != 0 then r1
    else r1.(currPri := if q > 0 then q - 1 else r1.currPri, ticksLeft := cfg.quantum[Below(q)])
  }

  /** The record of a job of queue q after a tick at time now. */
  function Executed(cfg: Config, r: Job, q: nat, now: int): Job
    requires q < |cfg.quantum|
  {
    var r1 := Ticked(r, now);
    if r1.timeLeft == 0 then r1.(endTime := now + 1) else Rescheduled(cfg, r1, q)
  }

  /** Where a job of queue q goes that is left with the record r at time now. */
  function Destination(cfg: Config, r: Job, q: nat, now: int): Place {
    if r.timeLeft == 0 then Finished
    else if IssuesIO(r) then Pending(now + cfg.ioTime)
    else if r.ticksLeft == 0 then Queued(Below(q))
    else Queued(q)
  }

  /** Only a job with time left in its slice stays at the head of its queue. */
  predicate Stays(r: Job) {
    r.timeLeft != 0 && !IssuesIO(r) && r.ticksLeft != 0
  }

  /** The head of queue q has run for one tick at time now. */
  ghost predicate TickIs(cfg: Config, queue: seq<seq<nat>>, job: seq<Job>, ioDone: Events, now: int, q: nat,
                         queue': seq<seq<nat>>, job': seq<Job>, ioDone': Events) {
    q < |queue| == |cfg.quantum| && queue[q] != [] && queue[q][0] < |job|
    && var j := queue[q][0]; var r := Ticked(job[j], now);
    job' == job[j := Executed(cfg, job[j], q, now)]
    && MovedTo(queue, ioDone, q, j, Destination(cfg, r, q, now + 1), Stays(r), queue', ioDone')
  }

  /** The queues and jobs after the event of job j. */
  function Arrived(cfg: Config, queue: seq<seq<nat>>, job: seq<Job>, j: nat): (r: (seq<seq<nat>>, seq<Job>))
    ensures |r.1| == |job|
  {
    if j >= |job| || job[j].currPri >= |queue| then (queue, job)
    else
      var q := job[j].currPri;
      var list := if !cfg.iobump then queue[q] + [j] else [j] + queue[q];
      (queue[q := list], job[j := job[j].(doingIO := false)])
  }

  /** The queues and jobs after these events, one after the other. */
  function Arrivals(cfg: Config, queue: seq<seq<nat>>, job: seq<Job>, events: seq<nat>): (seq<seq<nat>>, seq<Job>)
    decreases |events|
  {
    if events == [] then (queue, job)
    else
      var after := Arrived(cfg, queue, job, events[0]);
      Arrivals(cfg, after.0, after.1, events[1..])
  }

  function Due(ioDone: Events, now: int): seq<nat> {
    if now in ioDone then ioDone[now] else []
  }

  predicate BoostDue(cfg: Config, now: int) {
    cfg.boost > 0 && now != 0 && now % cfg.boost == 0
  }

  /** The queues and jobs after the boost, if it is time for one. */
  ghost predicate BoostIs(cfg: Config, now: int, queue: seq<seq<nat>>, job: seq<Job>, queue': seq<seq<nat>>,
                          job': seq<Job>)
    requires cfg.Ok()
  {
    if BoostDue(cfg, now) then
      Boosted(queue, queue') && |job'| == |job| && forall j :: 0 <= j < |job| ==> job'[j] == BoostJob(cfg, job[j])
    else queue' == queue && job' == job
  }

  /** Queue q is the highest that is not empty; -1 if all are empty. */
  ghost predicate Highest(queue: seq<seq<nat>>, q: int) {
    -1 <= q < |queue| && (forall x :: q < x < |queue| ==> queue[x] == []) && (q >= 0 ==> queue[q] != [])
  }

  /** Boost, events, and one tick of the head of the highest queue q, or an idle one if q is -1. */
  ghost predicate TurnIs(cfg: Config, queue: seq<seq<nat>>, job: seq<Job>, ioDone: Events, now: int, q: int,
                         queue': seq<seq<nat>>, job': seq<Job>, ioDone': Events)
    requires cfg.Ok()
  {
    exists queue1, job1 ::
      BoostIs(cfg, now, queue, job, queue1, job1) && RestIs(cfg, queue1, job1, ioDone, now, q, queue', job', ioDone')
  }

  /** The part of a turn after the boost, with q the queue that is served. */
  ghost predicate RestIs(cfg: Config, queue: seq<seq<nat>>, job: seq<Job>, ioDone: Events, now: int, q: int,
                         queue': seq<seq<nat>>, job': seq<Job>, ioDone': Events) {
    var (queue2, job2) := Arrivals(cfg, queue, job, Due(ioDone, now));
    Highest(queue2, q)
    && if q == -1 then queue' == queue2 && job' == job2 && ioDone' == ioDone
       else TickIs(cfg, queue2, job2, ioDone, now, q, queue', job', ioDone')
  }

  lemma {:induction false} ArrivalsKeepSpecs(cfg: Config, queue: seq<seq<nat>>, job: seq<Job>, events: seq<nat>)
    ensures SameSpecs(job, Arrivals(cfg, queue, job, events).1)
    decreases |events|
  {
    if events != [] {
      var after := Arrived(cfg, queue, job, events[0]);
      ArrivalsKeepSpecs(cfg, after.0, after.1, events[1..]);
      var job' := Arrivals(cfg, queue, job, events).1;
      forall j | 0 <= j < |job| ensures SameSpec(job[j], job'[j]) {
        assert SameSpec(after.1[j], job'[j]);
      }
    }
  }

  lemma BoostKeepsSpecs(cfg: Config, now: int, queue: seq<seq<nat>>, job: seq<Job>, queue': seq<seq<nat>>,
                        job': seq<Job>)
    requires cfg.Ok() && BoostIs(cfg, now, queue, job, queue', job')
    ensures SameSpecs(job, job')
  {
  }

  lemma TickKeepsSpecs(cfg: Config, queue: seq<seq<nat>>, job: seq<Job>, ioDone: Events, now: int, q: nat,
                       queue': seq<seq<nat>>, job': seq<Job>, ioDone': Events)
    requires TickIs(cfg, queue, job, ioDone, now, q, queue', job', ioDone')
    ensures SameSpecs(job, job')
  {
  }

  lemma SpecsChain(job: seq<Job>, job1: seq<Job>, job2: seq<Job>)
    requires SameSpecs(job, job1) && SameSpecs(job1, job2)
    ensures SameSpecs(job, job2)
  {
    forall j | 0 <= j < |job| ensures SameSpec(job[j], job2[j]) {
      assert SameSpec(job[j], job1[j]) && SameSpec(job1[j], job2[j]);
    }
  }

  /** The job list may differ from turn to turn, but not in what the user specified. */
  lemma TurnKeepsSpecs(cfg: Config, queue: seq<seq<nat>>, job: seq<Job>, ioDone: Events, now: int, q: int,
                       queue': seq<seq<nat>>, job': seq<Job>, ioDone': Events)
    requires cfg.Ok() && TurnIs(cfg, queue, job, ioDone, now, q, queue', job', ioDone')
    ensures SameSpecs(job, job')
  {
    var queue1, job1 :| BoostIs(cfg, now, queue, job, queue1, job1)
                        && RestIs(cfg, queue1, job1, ioDone, now, q, queue', job', ioDone');
    BoostKeepsSpecs(cfg, now, queue, job, queue1, job1);
    ArrivalsKeepSpecs(cfg, queue1, job1, Due(ioDone, now));
    var (queue2, job2) := Arrivals(cfg, queue1, job1, Due(ioDone, now));
    SpecsChain(job, job1, job2);
    if q != -1 {
      TickKeepsSpecs(cfg, queue2, job2, ioDone, now, q, queue', job', ioDone');
      SpecsChain(job, job2, job');
    }
  }

  ghost predicate AllPositive(job: seq<Job>) {
    forall j :: 0 <= j < |job| ==> job[j].runTime >= 1
  }

  lemma SamePositive(job: seq<Job>, job': seq<Job>)
    requires SameSpecs(job, job')
    ensures AllPositive(job) <==> AllPositive(job')
  {
    assert forall j :: 0 <= j < |job| ==> SameSpec(job[j], job'[j]);
  }

  lemma ArrivalsPositive(cfg: Config, queue: seq<seq<nat>>, job: seq<Job>, events: seq<nat>)
    ensures var job' := Arrivals(cfg, queue, job, events).1;
      |job'| == |job| && (AllPositive(job) <==> AllPositive(job'))
  {
    ArrivalsKeepSpecs(cfg, queue, job, events);
    SamePositive(job, Arrivals(cfg, queue, job, events).1);
  }

  // ----- Whole runs

  /** What the main loop starts a turn with. */
  datatype Moment = Moment(queue: seq<seq<nat>>, job: seq<Job>, ioDone: Events, now: int)

  ghost predicate Follows(cfg: Config, m: Moment, q: int, m': Moment)
    requires cfg.Ok()
  {
    TurnIs(cfg, m.queue, m.job, m.ioDone, m.now, q, m'.queue, m'.job, m'.ioDone) && m'.now == m.now + 1
  }

  /** Every job is in one place, with a record that fits it. */
  ghost predicate InOrder(cfg: Config, m: Moment) {
    m.now >= 0 && exists where :: Placed(cfg, m.queue, m.job, m.ioDone, m.now, where)
  }

  ghost predicate AllInOrder(cfg: Config, moments: seq<Moment>) {
    forall k {:trigger InOrder(cfg, moments[k])} :: 0 <= k < |moments| ==> InOrder(cfg, moments[k])
  }

  /** One turn after the other; turn k served queue served[k], or idled if that is -1. */
  ghost predicate IsRun(cfg: Config, moments: seq<Moment>, served: seq<int>)
    requires cfg.Ok()
  {
    |moments| == |served| + 1 && forall k :: 0 <= k < |served| ==> TurnAt(cfg, moments, served, k)
  }

  ghost predicate TurnAt(cfg: Config, moments: seq<Moment>, served: seq<int>, k: nat)
    requires cfg.Ok() && k < |served| < |moments|
  {
    Follows(cfg, moments[k], served[k], moments[k + 1])
  }

  /** The number of turns that served no queue. */
  ghost function Idles(served: seq<int>): nat {
    if served == [] then 0 else Idles(served[..|served| - 1]) + (if served[|served| - 1] == -1 then 1 else 0)
  }

  lemma MoreInOrder(cfg: Config, moments: seq<Moment>, m: Moment)
    requires AllInOrder(cfg, moments) && InOrder(cfg, m)
    ensures AllInOrder(cfg, moments + [m])
  {
    forall k | 0 <= k < |moments + [m]| ensures InOrder(cfg, (moments + [m])[k]) {
      if k < |moments| {
        assert InOrder(cfg, moments[k]);
      }
    }
  }

  lemma TurnStays(cfg: Config, moments: seq<Moment>, served: seq<int>, q: int, m: Moment, k: nat)
    requires cfg.Ok() && k < |served| < |moments| && TurnAt(cfg, moments, served, k)
    ensures TurnAt(cfg, moments + [m], served + [q], k)
  {
  }

  lemma TurnLast(cfg: Config, moments: seq<Moment>, served: seq<int>, q: int, m: Moment)
    requires cfg.Ok() && |moments| == |served| + 1 && Follows(cfg, moments[|served|], q, m)
    ensures TurnAt(cfg, moments + [m], served + [q], |served|)
  {
  }

  lemma OneMoreIdle(served: seq<int>, q: int)
    ensures Idles(served + [q]) == Idles(served) + (if q == -1 then 1 else 0)
  {
    assert (served + [q])[..|served|] == served;
  }

  lemma LongerRun(cfg: Config, moments: seq<Moment>, served: seq<int>, q: int, m: Moment)
    requires cfg.Ok() && IsRun(cfg, moments, served) && Follows(cfg, moments[|served|], q, m)
    ensures IsRun(cfg, moments + [m], served + [q])
  {
    forall k: nat | k < |served| ensures TurnAt(cfg, moments + [m], served + [q], k) {
      TurnStays(cfg, moments, served, q, m, k);
    }
    TurnLast(cfg, moments, served, q, m);
  }

  // ----- The simulator

  /** A job as the user specifies it. */
  datatype Spec = Spec(startTime: int, runTime: int, ioFreq: int)

  function NewJob(cfg: Config, spec: Spec): Job
    requires |cfg.quantum| >= 1
  {
    Job(cfg.Hi(), cfg.quantum[cfg.Hi()], spec.startTime, spec.runTime, spec.runTime, spec.ioFreq, false, -1, 0)
  }

  /** The first n jobs that start at time t. */
  ghost function Starters(jobs: seq<Spec>, n: nat, t: int): seq<nat>
    requires n <= |jobs|
  {
    if n == 0 then [] else Starters(jobs, n - 1, t) + (if jobs[n - 1].startTime == t then [n - 1] else [])
  }

  lemma {:induction false} StartersAre(jobs: seq<Spec>, n: nat, t: int)
    requires n <= |jobs|
    ensures NoDuplicates(Starters(jobs, n, t))
    ensures forall j: nat :: j in Starters(jobs, n, t) <==> j < n && jobs[j].startTime == t
  {
    if n > 0 {
      StartersAre(jobs, n - 1, t);
      assert n - 1 !in Starters(jobs, n - 1, t);
    }
  }

  lemma {:induction false} NoStarters(jobs: seq<Spec>, n: nat, t: int)
    requires n <= |jobs| && forall k :: 0 <= k < n ==> jobs[k].startTime != t
    ensures Starters(jobs, n, t) == []
  {
    if n > 0 {
      NoStarters(jobs, n - 1, t);
    }
  }

  /** The jobs as they are read: all queues are empty, and every job has an event at its start time. */
  ghost predicate Starting(cfg: Config, jobs: seq<Spec>, m: Moment)
    requires |cfg.quantum| >= 1
  {
    |m.queue| == |cfg.quantum| && (forall q :: 0 <= q < |m.queue| ==> m.queue[q] == []) && m.now == 0
    && Loaded(cfg, jobs, m.job, m.ioDone)
  }

  ghost predicate Loaded(cfg: Config, jobs: seq<Spec>, job: seq<Job>, ioDone: Events)
    requires |cfg.quantum| >= 1
  {
    |job| == |jobs| && (forall k :: 0 <= k < |jobs| ==> job[k] == NewJob(cfg, jobs[k]))
    && HasStarters(jobs, |jobs|, ioDone)
  }

  /** The events are those of the first n jobs, at their start times. */
  ghost predicate HasStarters(jobs: seq<Spec>, n: nat, ioDone: Events)
    requires n <= |jobs|
  {
    (forall k :: 0 <= k < n ==> jobs[k].startTime in ioDone)
    && forall t :: t in ioDone ==> ioDone[t] == Starters(jobs, n, t)
  }

  lemma LoadOne(jobs: seq<Spec>, ioDone: Events, i: nat)
    requires i < |jobs| && HasStarters(jobs, i, ioDone)
    ensures HasStarters(jobs, i + 1, WithEvent(ioDone, jobs[i].startTime, i))
  {
    if jobs[i].startTime !in ioDone {
      NoStarters(jobs, i, jobs[i].startTime);
    }
  }

  predicate StartsInTime(jobs: seq<Spec>) {
    forall k :: 0 <= k < |jobs| ==> jobs[k].startTime >= 0
  }

  /** Where the jobs are before the first turn. */
  function Waiting(jobs: seq<Spec>): (where: seq<Place>)
    ensures |where| == |jobs| && forall k :: 0 <= k < |jobs| ==> where[k] == Pending(jobs[k].startTime)
  {
    seq(|jobs|, k requires 0 <= k < |jobs| => Pending(jobs[k].startTime))
  }

  lemma {:induction false} StartOk(cfg: Config, jobs: seq<Spec>, m: Moment)
    requires cfg.Ok() && StartsInTime(jobs) && Starting(cfg, jobs, m)
    ensures Placed(cfg, m.queue, m.job, m.ioDone, 0, Waiting(jobs))
    ensures Done(Waiting(jobs)) == 0 && RunTime(m.job) == TimeLeft(m.job)
  {
    var where := Waiting(jobs);
    forall k | 0 <= k < |jobs| ensures JobOk(cfg, m.job[k], where[k], 0) {
    }
    forall t | t in m.ioDone && 0 <= t ensures Holds(m.ioDone[t], where, Pending(t)) {
      StartersAre(jobs, |jobs|, t);
    }
    forall q: nat | q < |m.queue| ensures Holds(m.queue[q], where, Queued(q)) {
    }
    NoneDone(where);
    NoneRan(m.job);
  }

  lemma {:induction false} NoneDone(where: seq<Place>)
    requires forall j :: 0 <= j < |where| ==> !where[j].Finished?
    ensures Done(where) == 0
  {
    if where != [] {
      NoneDone(where[..|where| - 1]);
    }
  }

  lemma {:induction false} NoneRan(job: seq<Job>)
    requires forall j :: 0 <= j < |job| ==> job[j].timeLeft == job[j].runTime
    ensures RunTime(job) == TimeLeft(job)
  {
    if job != [] {
      NoneRan(job[..|job| - 1]);
    }
  }

  class Scheduler {
    const cfg: Config
    var queue: seq<seq<nat>>
    var job: seq<Job>
    var ioDone: Events
    var currTime: int
    var finishedJobs: int
    ghost var where: seq<Place>
    ghost var idle: int
    ghost var horizon: int

    /** Reads the job list: every job starts at the highest priority, as an event at its
        start time. */
    constructor (cfg: Config, jobs: seq<Spec>)
      requires |cfg.quantum| >= 1
      ensures this.cfg == cfg && Starting(cfg, jobs, Now()) && where == Waiting(jobs) && idle == 0
      ensures cfg.Ok() && StartsInTime(jobs) ==> Valid()
    {
      this.cfg := cfg;
      queue := seq(|cfg.quantum|, _ => []);
      job, ioDone := [], map[];
      currTime, finishedJobs, idle := 0, 0, 0;
      where := Waiting(jobs);
      horizon := 0;
      new;
      Load(jobs);
      if cfg.Ok() && StartsInTime(jobs) {
        StartOk(cfg, jobs, Now());
      }
    }

    method Load(jobs: seq<Spec>)
      requires |cfg.quantum| >= 1 && job == [] && ioDone == map[]
      modifies this`job, this`ioDone, this`horizon
      ensures Loaded(cfg, jobs, job, ioDone) && forall t :: t in ioDone ==> t <= horizon
    {
      var i := 0;
      while i < |jobs|
        invariant 0 <= i <= |jobs|
        invariant |job| == i && forall k :: 0 <= k < i ==> job[k] == NewJob(cfg, jobs[k])
        invariant HasStarters(jobs, i, ioDone) && forall t :: t in ioDone ==> t <= horizon
      {
        LoadOne(jobs, ioDone, i);
        job := job + [NewJob(cfg, jobs[i])];
        ioDone := WithEvent(ioDone, jobs[i].startTime, i);
        horizon := if jobs[i].startTime > horizon then jobs[i].startTime else horizon;
        i := i + 1;
      }
    }

    /** What holds at the head of the main loop. */
    ghost predicate Valid()
      reads this
    {
      cfg.Ok() && 0 <= currTime && Placed(cfg, queue, job, ioDone, currTime, where) && finishedJobs == Done(where)
      && currTime == RunTime(job) - TimeLeft(job) + idle
      && forall t :: t in ioDone ==> t <= horizon
    }

    /** Between the events and the choice of a job: no job waits for an event that is due. */
    ghost predicate Delivered()
      reads this
    {
      cfg.Ok() && 0 <= currTime && |queue| == |cfg.quantum| && JobsOk(cfg, job, where, currTime)
      && QueuesOk(queue, where) && EventsOk(ioDone, where, currTime + 1)
      && finishedJobs == Done(where) && currTime == RunTime(job) - TimeLeft(job) + idle
      && forall t :: t in ioDone ==> t <= horizon
    }

    /** The queue to serve, from the highest down; -1 if there is no job to run. */
    method FindQueue() returns (q: int)
      requires |queue| >= 1
      ensures Highest(queue, q)
    {
      q := |queue| - 1;
      while q > 0
        invariant 0 <= q < |queue|
        invariant forall x :: q < x < |queue| ==> queue[x] == []
      {
        if |queue[q]| > 0 {
          return;
        }
        q := q - 1;
      }
      if |queue[0]| > 0 {
        return 0;
      }
      q := -1;
    }

    /** The priority boost. */
    method Boost()
      requires Valid()
      modifies this`queue, this`job, this`where
      ensures Valid() && TimeLeft(job) == old(TimeLeft(job)) && RunTime(job) == old(RunTime(job))
      ensures Boosted(old(queue), queue) && where == Lifted(old(where), cfg.Hi())
      ensures |job| == |old(job)| && forall j :: 0 <= j < |job| ==> job[j] == BoostJob(cfg, old(job)[j])
    {
      BoostLoop();
      LiftJobs();
      BoostKeeps(cfg, old(queue), queue, old(job), job, ioDone, currTime, where);
      where := Lifted(where, cfg.Hi());
    }

    /** Every unfinished job gets the highest priority and a new slice. */
    method LiftJobs()
      requires cfg.Ok()
      modifies this`job
      ensures |job| == |old(job)| && forall j :: 0 <= j < |job| ==> job[j] == BoostJob(cfg, old(job)[j])
    {
      var hi := cfg.Hi();
      var j := 0;
      while j < |job|
        invariant 0 <= j <= |job| == |old(job)|
        invariant forall x :: 0 <= x < j ==> job[x] == BoostJob(cfg, old(job)[x])
        invariant forall x :: j <= x < |job| ==> job[x] == old(job)[x]
      {
        if job[j].timeLeft > 0 {
          job := job[j := job[j].(currPri := hi, ticksLeft := cfg.quantum[hi])];
        }
        j := j + 1;
      }
    }

    /** Moving the jobs of the lower queues. */
    method BoostLoop()
      requires cfg.Ok() && |queue| == |cfg.quantum| && QueuesOk(queue, where) && JobsOk(cfg, job, where, currTime)
      modifies this`queue
      ensures Boosted(old(queue), queue)
    {
      var hi := cfg.Hi();
      var q := 0;
      while q < hi
        invariant 0 <= q <= hi == |queue| - 1 && BoostedTo(old(queue), queue, q)
      {
        NoneDoesIO(cfg, old(queue), job, where, currTime, q);
        BoostStep(old(queue), queue, q);
        MoveUp(q);
        q := q + 1;
      }
    }

    /** Moving the jobs of queue q; a job that does I/O would be dropped, but none does. */
    method MoveUp(q: nat)
      requires cfg.Ok() && q < cfg.Hi() == |queue| - 1
      requires forall k :: 0 <= k < |queue[q]| ==> queue[q][k] < |job| && !job[queue[q][k]].doingIO
      modifies this`queue
      ensures queue == old(queue)[cfg.Hi() := old(queue)[cfg.Hi()] + old(queue)[q]][q := []]
    {
      var hi := cfg.Hi();
      ghost var list, top := queue[q], queue[hi];
      var k := 0;
      while k < |queue[q]|
        invariant 0 <= k <= |list| && q < hi < |queue| == |old(queue)| && queue[hi] == top + list[..k]
        invariant forall x :: 0 <= x < hi ==> queue[x] == old(queue)[x]
      {
        var j := queue[q][k];
        if !job[j].doingIO {
          queue := queue[hi := queue[hi] + [j]];
        }
        assert list[..k + 1] == list[..k] + [j];
        k := k + 1;
      }
      assert list[..k] == list;
      queue := queue[q := []];
    }

    /** The event of job j, the first of those still due. */
    method Arrive(j: nat, ghost rest: seq<nat>)
      requires cfg.Ok() && Delivering(cfg, queue, job, ioDone, currTime, where, rest) && rest != [] && rest[0] == j
      modifies this`queue, this`job, this`where
      ensures Delivering(cfg, queue, job, ioDone, currTime, where, rest[1..])
      ensures TimeLeft(job) == old(TimeLeft(job)) && RunTime(job) == old(RunTime(job))
      ensures Done(where) == old(Done(where))
      ensures (queue, job) == Arrived(cfg, old(queue), old(job), j)
    {
      NextDelivered(cfg, queue, job, ioDone, currTime, where, rest);
      var q := job[j].currPri;
      var list := if !cfg.iobump then queue[q] + [j] else [j] + queue[q];
      job := job[j := job[j].(doingIO := false)];
      queue := queue[q := list];
      where := where[j := Queued(q)];
    }

    /** The events put their jobs on their queues, one after the other. */
    method ArriveAll(events: seq<nat>)
      requires cfg.Ok() && Delivering(cfg, queue, job, ioDone, currTime, where, events)
      modifies this`queue, this`job, this`where
      ensures Delivering(cfg, queue, job, ioDone, currTime, where, [])
      ensures TimeLeft(job) == old(TimeLeft(job)) && RunTime(job) == old(RunTime(job))
      ensures Done(where) == old(Done(where))
      ensures (queue, job) == Arrivals(cfg, old(queue), old(job), events)
    {
      var k := 0;
      assert events[0..] == events;
      while k < |events|
        invariant 0 <= k <= |events|
        invariant Delivering(cfg, queue, job, ioDone, currTime, where, events[k..])
        invariant TimeLeft(job) == old(TimeLeft(job)) && RunTime(job) == old(RunTime(job))
        invariant Done(where) == old(Done(where))
        invariant Arrivals(cfg, old(queue), old(job), events) == Arrivals(cfg, queue, job, events[k..])
      {
        FirstDue(cfg, queue, job, ioDone, currTime, where, events[k..]);
        Arrive(events[k], events[k..]);
        assert events[k..][1..] == events[k + 1..];
        k := k + 1;
      }
    }

    /** The events that are due put their jobs on their queues. */
    method Deliver()
      requires Valid()
      modifies this`queue, this`job, this`where
      ensures Delivered() && TimeLeft(job) == old(TimeLeft(job)) && |job| == |old(job)|
      ensures AllPositive(old(job)) <==> AllPositive(job)
      ensures (queue, job) == Arrivals(cfg, old(queue), old(job), Due(ioDone, currTime))
    {
      if currTime in ioDone {
        FirstDelivery(cfg, queue, job, ioDone, currTime, where);
        ArriveAll(ioDone[currTime]);
        AllDelivered(cfg, queue, job, ioDone, currTime, where, []);
      } else {
        NoneDue(ioDone, where, currTime);
      }
      ArrivalsPositive(cfg, old(queue), old(job), Due(ioDone, currTime));
    }

    /** Lowering the priority of a job that has used up its slice. */
    method LowerQueue(j: nat, q: nat, issuedIO: bool)
      requires cfg.Ok() && j < |job| && q < |queue| == |cfg.quantum|
      modifies this`job, this`queue
      ensures var q' := if q > 0 then q - 1 else q;
        var currPri := if q > 0 then q' else old(job)[j].currPri;
        job == old(job)[j := old(job)[j].(currPri := currPri, ticksLeft := cfg.quantum[q'])]
        && queue == if issuedIO then old(queue) else old(queue)[q' := old(queue)[q'] + [j]]
    {
      if q > 0 {
        job := job[j := job[j].(currPri := q - 1)];
        if !issuedIO {
          queue := queue[q - 1 := queue[q - 1] + [j]];
        }
        job := job[j := job[j].(ticksLeft := cfg.quantum[q - 1])];
      } else {
        if !issuedIO {
          queue := queue[q := queue[q] + [j]];
        }
        job := job[j := job[j].(ticksLeft := cfg.quantum[q])];
      }
    }

    /** What follows a tick that does not end the job: an I/O, the end of the slice. */
    method Reschedule(j: nat, q: nat) returns (ghost place: Place, ghost stays: bool)
      requires cfg.Ok() && j < |job| && q < |queue| == |cfg.quantum| && queue[q] != [] && queue[q][0] == j
      requires job[j].timeLeft > 0 && job[j].currPri == q && !job[j].doingIO
      requires InSlice(cfg, job[j].(ticksLeft := job[j].ticksLeft + 1))
      modifies this`job, this`queue, this`ioDone, this`horizon
      ensures MovedTo(old(queue), old(ioDone), q, j, place, stays, queue, ioDone) && !place.Finished?
      ensures place.Pending? <==> IssuesIO(old(job)[j])
      ensures place.Pending? ==> place.t == currTime + cfg.ioTime
      ensures |job| == |old(job)| && job == old(job)[j := job[j]] && Runnable(cfg, job[j])
      ensures job[j].(currPri := q, ticksLeft := 0, doingIO := false) == old(job)[j].(ticksLeft := 0)
      ensures place.Queued? ==> !job[j].doingIO && job[j].currPri == place.q
      ensures job[j] == Rescheduled(cfg, old(job)[j], q) && place == Destination(cfg, old(job)[j], q, currTime)
      ensures stays <==> Stays(old(job)[j])
      ensures job[j].currPri == if old(job)[j].ticksLeft == 0 && q > 0 then q - 1 else q
      ensures (forall t :: t in old(ioDone) ==> t <= old(horizon)) ==> forall t :: t in ioDone ==> t <= horizon
    {
      var ticksLeft := job[j].ticksLeft;
      place, stays := Queued(q), true;
      var issuedIO := false;
      if IssuesIO(job[j]) {
        issuedIO := true;
        queue := queue[q := queue[q][1..]];
        job := job[j := job[j].(doingIO := true)];
        if cfg.stay {
          job := job[j := job[j].(ticksLeft := cfg.quantum[q])];
        }
        var futureTime := currTime + cfg.ioTime;
        ioDone := WithEvent(ioDone, futureTime, j);
        place, stays, horizon := Pending(futureTime), false, if futureTime > horizon then futureTime else horizon;
      }
      if ticksLeft == 0 {
        if !issuedIO {
          queue := queue[q := queue[q][1..]];
          place, stays := Queued(if q > 0 then q - 1 else q), false;
        }
        LowerQueue(j, q, issuedIO);
      }
    }

    /** One tick of job j, the head of queue q, with all that may follow it.  `ok` is false if one of the two
        sanity checks of the simulator aborts it: never the first, and the second if the job had no time left. */
    method Execute(j: nat, q: nat) returns (ok: bool, ghost place: Place, ghost stays: bool)
      requires cfg.Ok() && 0 <= currTime && j < |job|
      requires q < |queue| == |cfg.quantum| && queue[q] != [] && queue[q][0] == j
      requires JobOk(cfg, job[j], Queued(q), currTime)
      modifies this`job, this`queue, this`ioDone, this`horizon, this`currTime, this`finishedJobs
      ensures ok <==> old(job)[j].timeLeft > 0
      ensures ok ==> currTime == old(currTime) + 1 && |job| == |old(job)| && job == old(job)[j := job[j]]
      ensures ok ==> MovedTo(old(queue), old(ioDone), q, j, place, stays, queue, ioDone)
      ensures ok ==> place.Pending? ==> currTime <= place.t
      ensures ok ==> JobOk(cfg, job[j], place, currTime) && job[j] == Executed(cfg, old(job)[j], q, old(currTime))
      ensures ok ==> place == Destination(cfg, Ticked(old(job)[j], old(currTime)), q, currTime)
      ensures ok ==> (stays <==> Stays(Ticked(old(job)[j], old(currTime))))
      ensures ok ==> TickIs(cfg, old(queue), old(job), old(ioDone), old(currTime), q, queue, job, ioDone)
      ensures ok ==> job[j].runTime == old(job)[j].runTime && job[j].timeLeft == old(job)[j].timeLeft - 1
      ensures ok ==> finishedJobs == old(finishedJobs) + (if place.Finished? then 1 else 0)
      ensures ok ==> (forall t :: t in old(ioDone) ==> t <= old(horizon)) ==> forall t :: t in ioDone ==> t <= horizon
    {
      ok, place, stays := job[j].currPri == q, Finished, false;
      if !ok {
        return;
      }
      ghost var r0, now := job[j], currTime;
      var r := Ticked(job[j], currTime);
      job := job[j := r];
      if r.timeLeft < 0 {
        return false, place, stays;
      }
      currTime := currTime + 1;
      if r.timeLeft == 0 {
        finishedJobs := finishedJobs + 1;
        job := job[j := r.(endTime := currTime)];
        queue := queue[q := queue[q][1..]];
      } else {
        place, stays := Reschedule(j, q);
        RescheduledOk(cfg, r0, r, job[j], q, place, now);
      }
    }

    method RunHead(q: nat) returns (ok: bool)
      requires Delivered() && q < |queue| && queue[q] != []
      modifies this
      ensures ok ==> Valid() && TimeLeft(job) == old(TimeLeft(job)) - 1 && |job| == |old(job)|
      ensures ok ==> TickIs(cfg, old(queue), old(job), old(ioDone), old(currTime), q, queue, job, ioDone)
      ensures ok ==> currTime == old(currTime) + 1 && idle == old(idle)
      ensures !ok ==> !AllPositive(old(job))
    {
      var j := queue[q][0];
      HeadIs(cfg, queue, job, where, currTime, q);
      ghost var queue0, job0, ioDone0, now := queue, job, ioDone, currTime;
      ghost var place, stays;
      ok, place, stays := Execute(j, q);
      if ok {
        Settle(q, place, stays, queue0, job0, ioDone0, now);
      }
    }

    /** The job that ran is now in this place. */
    ghost method Settle(q: nat, place: Place, stays: bool, queue0: seq<seq<nat>>, job0: seq<Job>, ioDone0: Events,
                        now: int)
      requires cfg.Ok() && 0 <= now && currTime == now + 1 && |queue0| == |cfg.quantum| && |job| == |job0|
      requires JobsOk(cfg, job0, where, now) && QueuesOk(queue0, where) && EventsOk(ioDone0, where, now + 1)
      requires q < |queue0| && queue0[q] != [] && queue0[q][0] < |job0|
      requires MovedTo(queue0, ioDone0, q, queue0[q][0], place, stays, queue, ioDone)
      requires place.Pending? ==> now + 1 <= place.t
      requires var j := queue0[q][0];
        JobOk(cfg, job[j], place, now + 1) && job[j].runTime == job0[j].runTime && job == job0[j := job[j]]
        && 0 <= job[j].timeLeft == job0[j].timeLeft - 1
      requires finishedJobs == Done(where) + (if place.Finished? then 1 else 0)
      requires now == RunTime(job0) - TimeLeft(job0) + idle && forall t :: t in ioDone ==> t <= horizon
      modifies this`where
      ensures Valid() && TimeLeft(job) == TimeLeft(job0) - 1
    {
      var j := queue0[q][0];
      Conclude(cfg, queue0, job0, ioDone0, where, now, q, place, stays, queue, job, ioDone, where[j := place]);
      where := where[j := place];
    }

    /** One turn of the main loop: it runs the head of queue q for a tick, or idles towards an event if q is -1.  No
        job overruns its slice, which is part of the invariant. */
    method Turn() returns (ok: bool, ghost q: int)
      requires Valid() && finishedJobs < |job|
      modifies this
      ensures ok ==> Valid() && SameSpecs(old(job), job)
      ensures ok ==> TurnIs(cfg, old(queue), old(job), old(ioDone), old(currTime), q, queue, job, ioDone)
      ensures ok ==> currTime == old(currTime) + 1 && idle == old(idle) + (if q == -1 then 1 else 0)
      ensures ok ==> TimeLeft(job) == old(TimeLeft(job)) - (if q == -1 then 0 else 1)
      ensures ok && q == -1 ==> horizon == old(horizon) && old(currTime) < horizon
      ensures !ok ==> !AllPositive(old(job))
    {
      BoostIfDue();
      ok, q := Rest();
      if ok {
        TurnKeepsSpecs(cfg, old(queue), old(job), old(ioDone), old(currTime), q, queue, job, ioDone);
      }
    }

    /** The boost, every cfg.boost time units. */
    method BoostIfDue()
      requires Valid()
      modifies this`queue, this`job, this`where
      ensures Valid() && TimeLeft(job) == old(TimeLeft(job)) && |job| == |old(job)|
      ensures AllPositive(old(job)) ==> AllPositive(job)
      ensures BoostIs(cfg, currTime, old(queue), old(job), queue, job)
    {
      if cfg.boost > 0 && currTime != 0 {
        if currTime % cfg.boost == 0 {
          Boost();
        }
      }
    }

    /** What follows the boost: events, and a tick of one job or none. */
    method Rest() returns (ok: bool, ghost q: int)
      requires Valid() && finishedJobs < |job|
      modifies this
      ensures ok ==> Valid() && |job| == |old(job)|
      ensures ok ==> TimeLeft(job) == old(TimeLeft(job)) - (if q == -1 then 0 else 1)
      ensures ok ==> RestIs(cfg, old(queue), old(job), old(ioDone), old(currTime), q, queue, job, ioDone)
      ensures ok ==> currTime == old(currTime) + 1 && idle == old(idle) + (if q == -1 then 1 else 0)
      ensures ok && q == -1 ==> horizon == old(horizon) && old(currTime) < horizon
      ensures !ok ==> !AllPositive(old(job))
    {
      ok := true;
      Deliver();
      var currQueue := FindQueue();
      q := currQueue;
      if currQueue == -1 {
        Idle();
      } else {
        ok := RunHead(currQueue);
      }
    }

    /** A tick without a job to run; some job still waits for a later event. */
    method Idle()
      requires Delivered() && finishedJobs < |job| && forall q :: 0 <= q < |queue| ==> queue[q] == []
      modifies this`currTime, this`idle
      ensures Valid() && currTime == old(currTime) + 1 && idle == old(idle) + 1 && old(currTime) < horizon
    {
      SomePending(cfg, queue, job, ioDone, where, currTime, horizon);
      LaterJobs(cfg, job, where, currTime);
      currTime := currTime + 1;
      idle := idle + 1;
    }

    ghost function Now(): Moment
      reads this
    {
      Moment(queue, job, ioDone, currTime)
    }

    lemma NowInOrder()
      requires Valid()
      ensures InOrder(cfg, Now())
    {
      assert Placed(cfg, Now().queue, Now().job, Now().ioDone, Now().now, where);
    }

    /** The main loop, turn by turn.  It ends in every case: with all jobs finished if all run times are positive,
        and otherwise by the check that a job should never have less than 0 time left. */
    method Run() returns (ok: bool, ghost moments: seq<Moment>, ghost served: seq<int>)
      requires Valid()
      modifies this
      ensures ok <==> AllPositive(old(job))
      ensures ok ==> Valid() && SameSpecs(old(job), job)
      ensures ok ==> forall j :: 0 <= j < |job| ==> where[j].Finished? && job[j].timeLeft == 0
      ensures ok ==> forall j :: 0 <= j < |job| ==>
        job[j].startTime <= job[j].firstRun && job[j].startTime + job[j].runTime <= job[j].endTime
      ensures ok ==> IsRun(cfg, moments, served) && moments[0] == old(Now()) && moments[|served|] == Now()
      ensures ok ==> AllInOrder(cfg, moments)
      ensures ok ==> currTime == old(currTime) + |served| == old(currTime) + old(TimeLeft(job)) + Idles(served)
      ensures ok ==> idle == old(idle) + Idles(served) && currTime == old(RunTime(job)) + idle
    {
      ok, moments, served := true, [Now()], [];
      NowInOrder();
      while ok && finishedJobs < |job|
        invariant ok ==> Valid() && SameSpecs(old(job), job)
        invariant ok ==> IsRun(cfg, moments, served) && moments[0] == old(Now()) && moments[|served|] == Now()
        invariant ok ==> AllInOrder(cfg, moments)
        invariant ok ==> currTime == old(currTime) + |served| && idle == old(idle) + Idles(served)
        invariant ok ==> |served| == old(TimeLeft(job)) - TimeLeft(job) + Idles(served)
        invariant !ok ==> !AllPositive(old(job))
        decreases ok, TimeLeft(job), horizon - currTime
      {
        ghost var job1 := job;
        ghost var q;
        ok, q := Turn();
        if ok {
          SpecsChain(old(job), job1, job);
          NowInOrder();
          MoreInOrder(cfg, moments, Now());
          LongerRun(cfg, moments, served, q, Now());
          OneMoreIdle(served, q);
          moments, served := moments + [Now()], served + [q];
        }
        SamePositive(old(job), job1);
      }
      if ok {
        AllFinished(cfg, job, where, currTime);
        SameRunTime(old(job), job);
        FinishedPositive(cfg, old(job), job, where, currTime);
      }
    }
  }

  lemma FinishedPositive(cfg: Config, job0: seq<Job>, job: seq<Job>, where: seq<Place>, now: int)
    requires SameSpecs(job0, job) && JobsOk(cfg, job, where, now)
    requires forall j :: 0 <= j < |job| ==> where[j].Finished?
    ensures AllPositive(job0)
  {
    forall j | 0 <= j < |job0| ensures job0[j].runTime >= 1 {
      assert SameSpec(job0[j], job[j]) && JobOk(cfg, job[j], where[j], now);
    }
  }

  lemma LaterJobs(cfg: Config, job: seq<Job>, where: seq<Place>, now: int)
    requires JobsOk(cfg, job, where, now)
    ensures JobsOk(cfg, job, where, now + 1)
  {
    forall j | 0 <= j < |job| ensures JobOk(cfg, job[j], where[j], now + 1) {
      assert JobOk(cfg, job[j], where[j], now);
    }
  }

  /** The whole simulation, turn by turn from the jobs as specified: it succeeds exactly if all run times are positive,
      whatever the slices are. */
  method Simulate(cfg: Config, jobs: seq<Spec>)
    returns (ok: bool, time: int, job: seq<Job>, ghost moments: seq<Moment>, ghost served: seq<int>)
    requires cfg.Ok() && StartsInTime(jobs)
    ensures ok <==> forall i :: 0 <= i < |jobs| ==> jobs[i].runTime >= 1
    ensures ok ==> IsRun(cfg, moments, served) && Starting(cfg, jobs, moments[0]) && AllInOrder(cfg, moments)
    ensures ok ==> Over(moments[|served|]) && time == moments[|served|].now && job == moments[|served|].job
    ensures ok ==> time == |served| == TotalRunTime(jobs) + Idles(served)
  {
    var s := new Scheduler(cfg, jobs);
    AsSpecified(cfg, jobs, s.job);
    ok, moments, served := s.Run();
    time, job := s.currTime, s.job;
  }

  ghost function TotalRunTime(jobs: seq<Spec>): nat {
    if jobs == [] then 0 else TotalRunTime(jobs[..|jobs| - 1]) + Positive(jobs[|jobs| - 1].runTime)
  }

  lemma {:induction false} AsSpecified(cfg: Config, jobs: seq<Spec>, job: seq<Job>)
    requires |cfg.quantum| >= 1 && |job| == |jobs| && forall i :: 0 <= i < |jobs| ==> job[i] == NewJob(cfg, jobs[i])
    ensures RunTime(job) == TotalRunTime(jobs)
    ensures AllPositive(job) <==> forall i :: 0 <= i < |jobs| ==> jobs[i].runTime >= 1
  {
    assert forall i :: 0 <= i < |jobs| ==> job[i].runTime == jobs[i].runTime;
    if jobs != [] {
      AsSpecified(cfg, jobs[..|jobs| - 1], job[..|jobs| - 1]);
    }
  }

  // ----- Jobs that are lost

  ghost predicate NotIn(queue: seq<seq<nat>>, j: nat) {
    forall q :: 0 <= q < |queue| ==> j !in queue[q]
  }

  ghost predicate NotDue(ioDone: Events, now: int, j: nat) {
    forall t :: t in ioDone && now <= t ==> j !in ioDone[t]
  }

  /** Job j has not run, is in no queue, and no event that is still to come names it. */
  ghost predicate Lost(m: Moment, j: nat) {
    j < |m.job| && m.job[j].firstRun == -1 && NotIn(m.queue, j) && NotDue(m.ioDone, m.now, j)
  }

  lemma {:induction false} NotInLower(queue: seq<seq<nat>>, k: nat, j: nat)
    requires NotIn(queue, j) && k <= |queue|
    ensures j !in Lower(queue, k)
  {
    if k > 0 {
      NotInLower(queue, k - 1, j);
    }
  }

  lemma {:induction false} NotArriving(cfg: Config, queue: seq<seq<nat>>, job: seq<Job>, events: seq<nat>, j: nat)
    requires NotIn(queue, j) && j !in events && j < |job|
    ensures var (queue', job') := Arrivals(cfg, queue, job, events);
      NotIn(queue', j) && |job'| == |job| && job'[j] == job[j]
    decreases |events|
  {
    if events != [] {
      var (queue1, job1) := Arrived(cfg, queue, job, events[0]);
      assert NotIn(queue1, j) && job1[j] == job[j];
      NotArriving(cfg, queue1, job1, events[1..], j);
    }
  }

  lemma NotServed(cfg: Config, queue: seq<seq<nat>>, job: seq<Job>, ioDone: Events, now: int, q: nat,
                  queue': seq<seq<nat>>, job': seq<Job>, ioDone': Events, j: nat)
    requires TickIs(cfg, queue, job, ioDone, now, q, queue', job', ioDone')
    requires NotIn(queue, j) && NotDue(ioDone, now, j) && j < |job|
    ensures NotIn(queue', j) && NotDue(ioDone', now + 1, j) && |job'| == |job| && job'[j] == job[j]
  {
    assert queue[q][0] != j;
    assert forall x :: x in queue[q][1..] ==> x in queue[q];
  }

  /** A lost job stays lost in every turn, boost or not. */
  lemma LostNext(cfg: Config, m: Moment, q: int, m': Moment, j: nat)
    requires cfg.Ok() && Follows(cfg, m, q, m') && Lost(m, j)
    ensures Lost(m', j)
  {
    var queue1, job1: seq<Job> :| BoostIs(cfg, m.now, m.queue, m.job, queue1, job1)
                        && RestIs(cfg, queue1, job1, m.ioDone, m.now, q, m'.queue, m'.job, m'.ioDone);
    NotInLower(m.queue, if |m.queue| > 0 then |m.queue| - 1 else 0, j);
    assert NotIn(queue1, j) && job1[j].firstRun == -1;
    var events := Due(m.ioDone, m.now);
    NotArriving(cfg, queue1, job1, events, j);
    var (queue2, job2) := Arrivals(cfg, queue1, job1, events);
    if q != -1 {
      NotServed(cfg, queue2, job2, m.ioDone, m.now, q, m'.queue, m'.job, m'.ioDone, j);
    }
  }

  /** A job that is lost once never runs, however long the loop goes on. */
  lemma {:induction false} LostForever(cfg: Config, moments: seq<Moment>, served: seq<int>, j: nat, k: nat)
    requires cfg.Ok() && IsRun(cfg, moments, served) && Lost(moments[0], j) && k <= |served|
    ensures Lost(moments[k], j)
  {
    if k > 0 {
      LostForever(cfg, moments, served, j, k - 1);
      assert TurnAt(cfg, moments, served, k - 1);
      LostNext(cfg, moments[k - 1], served[k - 1], moments[k], j);
    }
  }

  /** The loop ends when every job has finished. */
  predicate Over(m: Moment) {
    forall j :: 0 <= j < |m.job| ==> m.job[j].timeLeft == 0 && m.job[j].firstRun != -1
  }

  /** A job with a negative start time is lost from the start, so that the loop never comes to its end. */
  lemma {:induction false} NegativeStart(cfg: Config, jobs: seq<Spec>, moments: seq<Moment>, served: seq<int>, j: nat,
                                         k: nat)
    requires cfg.Ok() && IsRun(cfg, moments, served) && j < |jobs| && jobs[j].startTime < 0 && k <= |served|
    requires Starting(cfg, jobs, moments[0])
    ensures moments[k].now == k && !Over(moments[k])
  {
    forall t | t in moments[0].ioDone && 0 <= t ensures j !in moments[0].ioDone[t] {
      StartersAre(jobs, |jobs|, t);
    }
    LostForever(cfg, moments, served, j, k);
    TimePasses(cfg, moments, served, k);
  }

  lemma {:induction false} TimePasses(cfg: Config, moments: seq<Moment>, served: seq<int>, k: nat)
    requires cfg.Ok() && IsRun(cfg, moments, served) && k <= |served|
    ensures moments[k].now == moments[0].now + k
  {
    if k > 0 {
      TimePasses(cfg, moments, served, k - 1);
      assert TurnAt(cfg, moments, served, k - 1);
    }
  }

  lemma QueuedBelow(cfg: Config, job: seq<Job>, where: seq<Place>, now: int)
    requires JobsOk(cfg, job, where, now)
    ensures forall j :: 0 <= j < |where| && where[j].Queued? ==> where[j].q < |cfg.quantum|
  {
    forall j | 0 <= j < |where| && where[j].Queued? ensures where[j].q < |cfg.quantum| {
      assert JobOk(cfg, job[j], where[j], now);
    }
  }

  lemma RescheduledOk(cfg: Config, r0: Job, r: Job, r': Job, q: nat, place: Place, now: int)
    requires JobOk(cfg, r0, Queued(q), now) && 0 <= now
    requires r == r0.(timeLeft := r0.timeLeft - 1, ticksLeft := r0.ticksLeft - 1,
                      firstRun := if r0.firstRun == -1 then now else r0.firstRun)
    requires Runnable(cfg, r') && r'.(currPri := q, ticksLeft := 0, doingIO := false) == r.(ticksLeft := 0)
    requires !place.Finished? && (place.Pending? ==> now + 1 <= place.t)
    requires place.Queued? ==> !r'.doingIO && r'.currPri == place.q
    ensures JobOk(cfg, r', place, now + 1)
  {
  }

  /** One job, the head of queue q, gets a new record and moves on to `place`. */
  lemma Conclude(cfg: Config, queue: seq<seq<nat>>, job: seq<Job>, ioDone: Events, where: seq<Place>, now: int, q: nat,
                 place: Place, stays: bool, queue': seq<seq<nat>>, job': seq<Job>, ioDone': Events, where': seq<Place>)
    requires |queue| == |cfg.quantum| && JobsOk(cfg, job, where, now) && QueuesOk(queue, where)
    requires EventsOk(ioDone, where, now + 1) && q < |queue| && queue[q] != [] && queue[q][0] < |job| == |job'|
    requires MovedTo(queue, ioDone, q, queue[q][0], place, stays, queue', ioDone')
    requires place.Pending? ==> now + 1 <= place.t
    requires var j := queue[q][0];
      JobOk(cfg, job'[j], place, now + 1) && job'[j].runTime == job[j].runTime
      && job' == job[j := job'[j]] && where' == where[j := place]
    ensures Placed(cfg, queue', job', ioDone', now + 1, where')
    ensures Done(where') == Done(where) + (if place.Finished? then 1 else 0)
    ensures var j := queue[q][0];
      TimeLeft(job') == TimeLeft(job) - Positive(job[j].timeLeft) + Positive(job'[j].timeLeft)
      && RunTime(job') == RunTime(job)
  {
    var j := queue[q][0];
    MoveOn(queue, where, ioDone, now + 1, q, place, stays, queue', ioDone');
    JobsAfter(cfg, job, where, now, now + 1, j, job'[j], place);
    SumsAfter(job, j, job'[j]);
    DoneAfter(where, j, place);
  }

  lemma HeadIs(cfg: Config, queue: seq<seq<nat>>, job: seq<Job>, where: seq<Place>, now: int, q: nat)
    requires QueuesOk(queue, where) && JobsOk(cfg, job, where, now) && q < |queue| && queue[q] != []
    ensures queue[q][0] < |job| && where[queue[q][0]] == Queued(q) && JobOk(cfg, job[queue[q][0]], Queued(q), now)
  {
    var j := queue[q][0];
    assert Holds(queue[q], where, Queued(q)) && j in queue[q];
  }

  /** With work left and every queue empty some job waits for a later event. */
  lemma SomePending(cfg: Config, queue: seq<seq<nat>>, job: seq<Job>, ioDone: Events, where: seq<Place>, now: int,
                    horizon: int)
    requires |queue| == |cfg.quantum| && JobsOk(cfg, job, where, now) && QueuesOk(queue, where)
    requires EventsOk(ioDone, where, now + 1) && Done(where) < |job|
    requires forall q :: 0 <= q < |queue| ==> queue[q] == []
    requires forall t :: t in ioDone ==> t <= horizon
    ensures now < horizon
  {
    DoneAll(where);
    var j :| 0 <= j < |where| && !where[j].Finished?;
    QueuedBelow(cfg, job, where, now);
    if where[j].Queued? {
      QueuedIn(queue, where, j);
      assert false;
    }
  }

  lemma QueuedIn(queue: seq<seq<nat>>, where: seq<Place>, j: nat)
    requires QueuesOk(queue, where) && j < |where| && where[j].Queued? && where[j].q < |queue|
    ensures queue[where[j].q] != []
  {
    assert Holds(queue[where[j].q], where, where[j]);
    assert j in queue[where[j].q];
  }

  lemma AllFinished(cfg: Config, job: seq<Job>, where: seq<Place>, now: int)
    requires JobsOk(cfg, job, where, now) && |job| <= Done(where)
    ensures forall j :: 0 <= j < |job| ==>
      where[j].Finished? && job[j].timeLeft == 0 && job[j].startTime <= job[j].firstRun
      && job[j].startTime + job[j].runTime <= job[j].endTime
    ensures TimeLeft(job) == 0
  {
    DoneAll(where);
    forall j | 0 <= j < |job| ensures JobOk(cfg, job[j], Finished, now) {
      assert JobOk(cfg, job[j], where[j], now);
    }
    NothingLeft(job);
  }

  lemma {:induction false} NothingLeft(job: seq<Job>)
    requires forall j :: 0 <= j < |job| ==> job[j].timeLeft == 0
    ensures TimeLeft(job) == 0
  {
    if job != [] {
      NothingLeft(job[..|job| - 1]);
    }
  }

  /** The queues and events when job j, the head of queue q, has moved on to `place`. */
  ghost predicate MovedTo(queue: seq<seq<nat>>, ioDone: Events, q: nat, j: nat, place: Place, stays: bool,
                          queue': seq<seq<nat>>, ioDone': Events)
    requires q < |queue| && queue[q] != []
  {
    var popped := queue[q := queue[q][1..]];
    match place
    case Finished => queue' == popped && ioDone' == ioDone
    case Pending(t) => queue' == popped && ioDone' == WithEvent(ioDone, t, j)
    case Queued(p) =>
      ioDone' == ioDone &&
      if stays then p == q && queue' == queue
      else p < |queue| && queue' == popped[p := popped[p] + [j]]
  }

  lemma MoveOn(queue: seq<seq<nat>>, where: seq<Place>, ioDone: Events, now: int, q: nat, place: Place, stays: bool,
               queue': seq<seq<nat>>, ioDone': Events)
    requires QueuesOk(queue, where) && EventsOk(ioDone, where, now) && q < |queue| && queue[q] != []
    requires MovedTo(queue, ioDone, q, queue[q][0], place, stays, queue', ioDone')
    requires place.Pending? ==> now <= place.t
    ensures queue[q][0] < |where| && where[queue[q][0]] == Queued(q)
    ensures var where' := where[queue[q][0] := place]; QueuesOk(queue', where') && EventsOk(ioDone', where', now)
  {
    var j := queue[q][0];
    LeaveQueue(queue, where, q, Finished);
    var popped, gone := queue[q := queue[q][1..]], where[j := Finished];
    match place
    case Finished =>
      EventsApart(ioDone, where, now, j, Finished);
    case Pending(t) =>
      LeaveQueue(queue, where, q, place);
      EventAdded(ioDone, where, now, j, t);
    case Queued(p) =>
      EventsApart(ioDone, where, now, j, place);
      if stays {
        assert where[j := place] == where;
      } else {
        JoinQueue(popped, gone, p, j, popped[p] + [j]);
        assert gone[j := place] == where[j := place];
      }
  }

  lemma NoneDoesIO(cfg: Config, queue: seq<seq<nat>>, job: seq<Job>, where: seq<Place>, now: int, q: nat)
    requires QueuesOk(queue, where) && JobsOk(cfg, job, where, now) && q < |queue|
    ensures forall k :: 0 <= k < |queue[q]| ==> queue[q][k] < |job| && !job[queue[q][k]].doingIO
  {
    assert Holds(queue[q], where, Queued(q));
    forall k | 0 <= k < |queue[q]| ensures queue[q][k] < |job| && !job[queue[q][k]].doingIO {
      assert queue[q][k] in queue[q];
      assert JobOk(cfg, job[queue[q][k]], where[queue[q][k]], now);
    }
  }

  lemma FirstDue(cfg: Config, queue: seq<seq<nat>>, job: seq<Job>, ioDone: Events, now: int,
                 where: seq<Place>, rest: seq<nat>)
    requires Delivering(cfg, queue, job, ioDone, now, where, rest) && rest != []
    ensures rest[0] < |job| && where[rest[0]] == Pending(now) && job[rest[0]].currPri < |queue|
  {
    var j := rest[0];
    assert j in rest;
    assert JobOk(cfg, job[j], where[j], now);
  }

  lemma FirstDelivery(cfg: Config, queue: seq<seq<nat>>, job: seq<Job>, ioDone: Events, now: int, where: seq<Place>)
    requires Placed(cfg, queue, job, ioDone, now, where) && now in ioDone
    ensures Delivering(cfg, queue, job, ioDone, now, where, ioDone[now])
  {
    assert Holds(ioDone[now], where, Pending(now));
  }

  lemma AllDelivered(cfg: Config, queue: seq<seq<nat>>, job: seq<Job>, ioDone: Events, now: int,
                     where: seq<Place>, rest: seq<nat>)
    requires Delivering(cfg, queue, job, ioDone, now, where, rest) && rest == []
    ensures EventsOk(ioDone, where, now + 1)
  {
    forall j | 0 <= j < |where| && where[j].Pending? ensures where[j].t != now {
      assert j !in rest;
    }
  }

  lemma NoneDue(ioDone: Events, where: seq<Place>, now: int)
    requires EventsOk(ioDone, where, now) && now !in ioDone
    ensures EventsOk(ioDone, where, now + 1)
  {
  }
}
