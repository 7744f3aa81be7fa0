/** The scan ends: every effective step uses up a bounded supply, and nobody can be stuck. */
module ScanProgress {

  import opened ScanModel
  import opened ScanSafety
  import opened ScanCoverage

  /** The steps a queued job can still cause, its whole subtree included. */
  ghost function JobCost(cfg: Config, job: Job): nat
    decreases if job.depth > cfg.maxDepth then 0 else cfg.maxDepth + 1 - job.depth, 1, 0
  {
    if job.depth > cfg.maxDepth then 3 else 4 + EntriesCost(cfg, job, 0)
  }

  ghost function EntriesCost(cfg: Config, job: Job, i: nat): nat
    decreases if job.depth > cfg.maxDepth then 0 else cfg.maxDepth + 1 - job.depth, 0, |Listing(cfg, job.path)| - i
  {
    if i >= |Listing(cfg, job.path)| then 0
    else
      6 + EntriesCost(cfg, job, i + 1)
      + (if !Descends(cfg, job, i) then 0
         else if job.depth >= cfg.maxDepth then 3
         else JobCost(cfg, ChildAt(cfg, job, i)))
  }

  ghost function WorkerCost(cfg: Config, w: Worker): int {
    match w
    case Idle => 1
    case Taken(job) => JobCost(cfg, job)
    case Scanning(job, i) => 3 + EntriesCost(cfg, job, i)
    case Recording(job, i) => 4 + EntriesCost(cfg, job, i + 1)
    case Counting(job, i) => 2 + EntriesCost(cfg, job, i)
    case Sending(job, i) => 1 + EntriesCost(cfg, job, i)
    case Undoing(job, i) => 5 + EntriesCost(cfg, job, i + 1)
    case Skipping(job, i) => 4 + EntriesCost(cfg, job, i + 1)
    case Finishing(_) => 2
    case Exited => 0
  }

  ghost function CostBy(cfg: Config): Worker -> int {
    w => WorkerCost(cfg, w)
  }

  ghost function QueueCost(cfg: Config, queue: seq<Job>): nat {
    if queue == [] then 0 else JobCost(cfg, queue[0]) + QueueCost(cfg, queue[1..])
  }

  ghost function SeedsCost(cfg: Config, n: nat): nat
    decreases |cfg.seeds| - n
  {
    if n >= |cfg.seeds| then 0 else 2 + JobCost(cfg, SeedJob(cfg.seeds[n])) + SeedsCost(cfg, n + 1)
  }

  ghost function SeederCost(cfg: Config, seeder: Seeder): int {
    match seeder
    case Next(n) => SeedsCost(cfg, n)
    case Posting(n) => SeedsCost(cfg, n) - 1
  }

  ghost function CoordinatorCost(c: Coordinator): int {
    match c
    case Polling => 4
    case SawLength(_) => 4
    case Quiet => 3
    case Flagged => 2
    case Waiting => 1
    case Done => 0
  }

  ghost function Potential(cfg: Config, s: State): int {
    QueueCost(cfg, s.sh.queue) + Sum(s.workers, CostBy(cfg)) + SeederCost(cfg, s.seeder) + CoordinatorCost(s.coordinator)
  }

  lemma {:induction false} QueueCostSnoc(cfg: Config, queue: seq<Job>, job: Job)
    ensures QueueCost(cfg, queue + [job]) == QueueCost(cfg, queue) + JobCost(cfg, job)
  {
    if queue != [] {
      QueueCostSnoc(cfg, queue[1..], job);
      assert (queue + [job])[1..] == queue[1..] + [job];
    }
  }

  lemma ChildCost(cfg: Config, job: Job, i: nat)
    requires i < |Listing(cfg, job.path)| && Descends(cfg, job, i)
    ensures EntriesCost(cfg, job, i) == 6 + EntriesCost(cfg, job, i + 1) + JobCost(cfg, ChildAt(cfg, job, i))
  {
    assert ChildAt(cfg, job, i).depth == job.depth + 1;
  }

  /** A worker that moves at all uses up some of its cost. */
  lemma StepCost(cfg: Config, sh: Shared, w: Worker)
    requires Placed(cfg, w) && !(w.Sending? && sh.queueClosed) && cfg.maxDepth > 0
    ensures var m := StepWorker(cfg, sh, w);
            || (m.sh == sh && m.w == w)
            || QueueCost(cfg, m.sh.queue) + WorkerCost(cfg, m.w) < QueueCost(cfg, sh.queue) + WorkerCost(cfg, w)
  {
    match w
    case Scanning(job, i) => if i < |Listing(cfg, job.path)| { LookCost(cfg, sh, job, i); }
    case Sending(job, i) =>
      ChildCost(cfg, job, i);
      QueueCostSnoc(cfg, sh.queue, ChildAt(cfg, job, i));
    case _ =>
  }

  lemma LookCost(cfg: Config, sh: Shared, job: Job, i: nat)
    requires i < |Listing(cfg, job.path)|
    ensures var m := LookAt(cfg, sh, job, i);
            m.sh.queue == sh.queue && WorkerCost(cfg, m.w) < 3 + EntriesCost(cfg, job, i)
  {
  }

  predicate Polls(s: State, a: Actor) {
    a.Coordinating? && (s.coordinator.Polling? || s.coordinator.SawLength?)
  }

  /** Every step of every actor either changes nothing, or is a poll that decides nothing, or
      brings the end strictly nearer. */
  lemma StepProgress(cfg: Config, s: State, a: Actor)
    requires Safe(cfg, s) && cfg.maxDepth > 0
    ensures var t := Fire(cfg, s, a);
            || t == s
            || Potential(cfg, t) < Potential(cfg, s)
            || (Polls(s, a) && Polls(t, a) && Potential(cfg, t) == Potential(cfg, s))
  {
    match a
    case Seeding =>
      if s.seeder.Posting? {
        SumNonNegative(s.workers, Load);
        QueueCostSnoc(cfg, s.sh.queue, SeedJob(cfg.seeds[s.seeder.n]));
      }
    case Working(k) =>
      if k < |s.workers| {
        var m := StepWorker(cfg, s.sh, s.workers[k]);
        InFlightBounds(s, k);
        StepCost(cfg, s.sh, s.workers[k]);
        SumMove(s.workers, k, m.w, CostBy(cfg));
      }
    case Coordinating =>
  }

  lemma PotentialNonNegative(cfg: Config, s: State)
    requires Safe(cfg, s)
    ensures Potential(cfg, s) >= 0
  {
    SumNonNegative(s.workers, CostBy(cfg));
  }

  // ---- Bounded work -----------------------------------------------------------------------

  /** The steps of a schedule that change something, idle polls aside. */
  ghost function Effective(cfg: Config, s: State, schedule: seq<Actor>): nat {
    if schedule == [] then 0
    else
      var before := Exec(cfg, s, schedule[..|schedule| - 1]);
      var after := Exec(cfg, s, schedule);
      var last := schedule[|schedule| - 1];
      Effective(cfg, s, schedule[..|schedule| - 1])
      + if after == before || (Polls(before, last) && Polls(after, last)) then 0 else 1
  }

  lemma {:induction false} ExecSafe(cfg: Config, s: State, schedule: seq<Actor>)
    requires Safe(cfg, s)
    ensures Safe(cfg, Exec(cfg, s, schedule))
    ensures |Exec(cfg, s, schedule).workers| == |s.workers|
  {
    if schedule != [] {
      ExecSafe(cfg, s, schedule[..|schedule| - 1]);
      SafeKept(cfg, Exec(cfg, s, schedule[..|schedule| - 1]), schedule[|schedule| - 1]);
    }
  }

  lemma {:induction false} EffectiveUsesPotential(cfg: Config, s: State, schedule: seq<Actor>)
    requires Safe(cfg, s) && cfg.maxDepth > 0
    ensures Effective(cfg, s, schedule) + Potential(cfg, Exec(cfg, s, schedule)) <= Potential(cfg, s)
  {
    if schedule != [] {
      var front := schedule[..|schedule| - 1];
      EffectiveUsesPotential(cfg, s, front);
      ExecSafe(cfg, s, front);
      StepProgress(cfg, Exec(cfg, s, front), schedule[|schedule| - 1]);
    }
  }

  /** However the actors are interleaved, the effective steps of a scan are bounded in advance by
      the seeds and the tree below them. */
  lemma WorkIsBounded(cfg: Config, workers: nat, schedule: seq<Actor>)
    requires cfg.maxDepth > 0
    ensures Effective(cfg, Initial(workers), schedule) <= Potential(cfg, Initial(workers))
  {
    RunSafe(cfg, workers, []);
    EffectiveUsesPotential(cfg, Initial(workers), schedule);
    ExecSafe(cfg, Initial(workers), schedule);
    PotentialNonNegative(cfg, Exec(cfg, Initial(workers), schedule));
  }

  // ---- Nobody is stuck --------------------------------------------------------------------

  ghost predicate Blocked(cfg: Config, s: State) {
    && FireSeeder(cfg, s) == s
    && forall k :: 0 <= k < |s.workers| ==> FireWorker(cfg, s, k) == s
  }

  lemma BlockedWorker(cfg: Config, s: State, k: nat)
    requires Safe(cfg, s) && k < |s.workers| && FireWorker(cfg, s, k) == s
    ensures s.workers[k].Exited? || (s.workers[k].Idle? && s.sh.queue == [] && !s.sh.queueClosed)
  {
    var w := s.workers[k];
    var m := StepWorker(cfg, s.sh, w);
    assert m.w == w by { assert s.workers[k := m.w][k] == m.w; }
    assert m.sh == s.sh;
    InFlightBounds(s, k);
  }

  lemma BlockedMeansQuiet(cfg: Config, s: State)
    requires Safe(cfg, s) && |s.workers| > 0 && Blocked(cfg, s)
    ensures s.sh.queue == [] && s.sh.inFlight == 0 && Seeded(cfg, s)
    ensures s.sh.queueClosed ==> forall k :: 0 <= k < |s.workers| ==> s.workers[k].Exited?
  {
    forall k | 0 <= k < |s.workers|
      ensures s.workers[k].Exited? || (s.workers[k].Idle? && s.sh.queue == [] && !s.sh.queueClosed)
    {
      assert FireWorker(cfg, s, k) == s;
      BlockedWorker(cfg, s, k);
    }
    SumZero(s.workers, Load);
    if s.workers[0].Exited? {
      NothingInFlight(cfg, s);
    }
  }

  const THREE_POLLS: seq<Actor> := [Coordinating, Coordinating, Coordinating]

  lemma ThreePolls(cfg: Config, s: State)
    ensures Exec(cfg, s, THREE_POLLS)
            == FireCoordinator(cfg, FireCoordinator(cfg, FireCoordinator(cfg, s)))
  {
    var one: seq<Actor> := [Coordinating];
    assert THREE_POLLS[..2] == one + one && (one + one)[..1] == one && one[..0] == [];
    assert Exec(cfg, s, []) == s;
    assert Exec(cfg, s, one) == FireCoordinator(cfg, s);
    assert Exec(cfg, s, one + one) == FireCoordinator(cfg, FireCoordinator(cfg, s));
  }

  lemma BlockedCoordinatorMoves(cfg: Config, s: State)
    requires Safe(cfg, s) && |s.workers| > 0 && Blocked(cfg, s) && !s.coordinator.Done?
    ensures Potential(cfg, Exec(cfg, s, THREE_POLLS)) < Potential(cfg, s)
  {
    BlockedMeansQuiet(cfg, s);
    ThreePolls(cfg, s);
    var s1 := FireCoordinator(cfg, s);
    var s2 := FireCoordinator(cfg, s1);
    var s3 := FireCoordinator(cfg, s2);
    match s.coordinator
    case Polling => assert s1.coordinator == SawLength(0) && s2.coordinator == Quiet;
    case SawLength(n) => assert s3.coordinator == Quiet || s3.coordinator == Flagged || s3.coordinator == Waiting;
    case Quiet => assert s1.coordinator == Flagged && s2.coordinator == Waiting;
    case Flagged => assert s1.coordinator == Waiting;
    case Waiting => assert s1.coordinator == Done;
  }

  // ---- Fair schedules finish ----------------------------------------------------------------

  function CoordinatorTurns(schedule: seq<Actor>): nat {
    if schedule == [] then 0
    else CoordinatorTurns(schedule[..|schedule| - 1]) + if schedule[|schedule| - 1].Coordinating? then 1 else 0
  }

  /** A stretch of a schedule in which everyone gets a turn, the coordinator three, in any order and
      with any number of turns more. */
  ghost predicate Fair(workers: nat, segment: seq<Actor>) {
    && Seeding in segment
    && (forall k :: 0 <= k < workers ==> Working(k) in segment)
    && CoordinatorTurns(segment) >= 3
  }

  function Concat(segments: seq<seq<Actor>>): seq<Actor> {
    if segments == [] then [] else Concat(segments[..|segments| - 1]) + segments[|segments| - 1]
  }

  lemma {:induction false} ExecAppend(cfg: Config, s: State, a: seq<Actor>, b: seq<Actor>)
    ensures Exec(cfg, s, a + b) == Exec(cfg, Exec(cfg, s, a), b)
  {
    if b == [] {
      assert a + b == a;
    } else {
      ExecAppend(cfg, s, a, b[..|b| - 1]);
      assert (a + b)[..|a + b| - 1] == a + b[..|b| - 1];
    }
  }

  lemma ExecNoGain(cfg: Config, s: State, schedule: seq<Actor>)
    requires Safe(cfg, s) && cfg.maxDepth > 0
    ensures Potential(cfg, Exec(cfg, s, schedule)) <= Potential(cfg, s)
  {
    EffectiveUsesPotential(cfg, s, schedule);
  }

  /** The coordinator alone, some turns in a row. */
  function Polled(cfg: Config, s: State, turns: nat): State {
    if turns == 0 then s else FireCoordinator(cfg, Polled(cfg, s, turns - 1))
  }

  /** Only the coordinator may stand elsewhere. */
  ghost predicate SameWork(s: State, t: State) {
    t.sh == s.sh && t.workers == s.workers && t.seeder == s.seeder
  }

  lemma SameTurn(cfg: Config, s: State, t: State, a: Actor)
    requires SameWork(s, t) && !a.Coordinating? && Fire(cfg, t, a) == t
    ensures Fire(cfg, s, a) == s
  {
  }

  lemma PollIsSameWork(cfg: Config, t: State)
    requires Polls(FireCoordinator(cfg, t), Coordinating) || FireCoordinator(cfg, t) == t
    ensures SameWork(t, FireCoordinator(cfg, t))
  {
  }

  /** A schedule that brought the end no nearer did nothing but poll: whoever else had a turn was
      blocked. */
  lemma {:induction false} NothingButPolls(cfg: Config, s: State, schedule: seq<Actor>)
    requires Safe(cfg, s) && cfg.maxDepth > 0
    requires Potential(cfg, Exec(cfg, s, schedule)) >= Potential(cfg, s)
    ensures Exec(cfg, s, schedule) == Polled(cfg, s, CoordinatorTurns(schedule))
    ensures SameWork(s, Exec(cfg, s, schedule))
    ensures forall a :: a in schedule && !a.Coordinating? ==> Fire(cfg, s, a) == s
  {
    if schedule != [] {
      var front, last := schedule[..|schedule| - 1], schedule[|schedule| - 1];
      var t := Exec(cfg, s, front);
      ExecSafe(cfg, s, front);
      StepProgress(cfg, t, last);
      ExecNoGain(cfg, s, front);
      NothingButPolls(cfg, s, front);
      if last.Coordinating? {
        PollIsSameWork(cfg, t);
      } else {
        SameTurn(cfg, s, t, last);
      }
      forall a | a in schedule && !a.Coordinating? ensures Fire(cfg, s, a) == s {
        assert a in front || a == last;
      }
    }
  }

  lemma FairMeansBlocked(cfg: Config, s: State, segment: seq<Actor>)
    requires Safe(cfg, s) && Fair(|s.workers|, segment)
    requires forall a :: a in segment && !a.Coordinating? ==> Fire(cfg, s, a) == s
    ensures Blocked(cfg, s)
  {
    assert Fire(cfg, s, Seeding) == s;
    forall k | 0 <= k < |s.workers| ensures FireWorker(cfg, s, k) == s {
      assert Fire(cfg, s, Working(k)) == s;
    }
  }

  lemma {:induction false} PolledNoGain(cfg: Config, s: State, turns: nat)
    requires Safe(cfg, s) && cfg.maxDepth > 0
    ensures Safe(cfg, Polled(cfg, s, turns))
    ensures turns >= 3 ==> Potential(cfg, Polled(cfg, s, turns)) <= Potential(cfg, Polled(cfg, s, 3))
  {
    if turns > 0 {
      PolledNoGain(cfg, s, turns - 1);
      var t := Polled(cfg, s, turns - 1);
      SafeKept(cfg, t, Coordinating);
      StepProgress(cfg, t, Coordinating);
    }
  }

  /** Every fair stretch brings the end nearer. */
  lemma FairProgress(cfg: Config, s: State, segment: seq<Actor>)
    requires Safe(cfg, s) && cfg.maxDepth > 0 && |s.workers| > 0 && !s.coordinator.Done?
    requires Fair(|s.workers|, segment)
    ensures Potential(cfg, Exec(cfg, s, segment)) < Potential(cfg, s)
  {
    if Potential(cfg, Exec(cfg, s, segment)) >= Potential(cfg, s) {
      NothingButPolls(cfg, s, segment);
      FairMeansBlocked(cfg, s, segment);
      BlockedCoordinatorMoves(cfg, s);
      ThreePolls(cfg, s);
      assert Polled(cfg, s, 3) == Exec(cfg, s, THREE_POLLS) by {
        assert Polled(cfg, s, 1) == FireCoordinator(cfg, s);
        assert Polled(cfg, s, 2) == FireCoordinator(cfg, FireCoordinator(cfg, s));
      }
      PolledNoGain(cfg, s, CoordinatorTurns(segment));
      assert false;
    }
  }

  lemma {:induction false} DoneStays(cfg: Config, s: State, schedule: seq<Actor>)
    requires s.coordinator.Done?
    ensures Exec(cfg, s, schedule).coordinator.Done?
  {
    if schedule != [] {
      DoneStays(cfg, s, schedule[..|schedule| - 1]);
    }
  }

  lemma {:induction false} SegmentsFinish(cfg: Config, s: State, segments: seq<seq<Actor>>)
    requires Safe(cfg, s) && cfg.maxDepth > 0 && |s.workers| > 0
    requires forall segment :: segment in segments ==> Fair(|s.workers|, segment)
    ensures var t := Exec(cfg, s, Concat(segments));
            t.coordinator.Done? || Potential(cfg, t) + |segments| <= Potential(cfg, s)
  {
    if segments != [] {
      var front, last := segments[..|segments| - 1], segments[|segments| - 1];
      assert last in segments;
      SegmentsFinish(cfg, s, front);
      ExecAppend(cfg, s, Concat(front), last);
      var t := Exec(cfg, s, Concat(front));
      ExecSafe(cfg, s, Concat(front));
      if t.coordinator.Done? {
        DoneStays(cfg, t, last);
      } else {
        FairProgress(cfg, t, last);
      }
    }
  }

  /** From whatever point an uncancelled scan has reached, every schedule that goes on with enough fair
      stretches, more than a number known at that point, finishes it: it neither deadlocks nor polls
      for ever, however the goroutines are interleaved. */
  lemma {:induction false} ScanTerminates(cfg: Config, workers: nat, before: seq<Actor>, segments: seq<seq<Actor>>)
    requires cfg.maxDepth > 0 && workers > 0
    requires forall segment :: segment in segments ==> Fair(workers, segment)
    requires |segments| > Potential(cfg, Run(cfg, workers, before))
    ensures Run(cfg, workers, before + Concat(segments)).coordinator.Done?
  {
    RunSafe(cfg, workers, before);
    var s := Run(cfg, workers, before);
    ExecAppend(cfg, Initial(workers), before, Concat(segments));
    SegmentsFinish(cfg, s, segments);
    ExecSafe(cfg, s, Concat(segments));
    PotentialNonNegative(cfg, Exec(cfg, s, Concat(segments)));
  }
}
