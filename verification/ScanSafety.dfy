/** Termination detection: what `inFlight` counts, and why two separate reads are enough. */
module ScanSafety {

  import opened ScanModel

  /** What one worker adds to `inFlight`: the job it holds, and a child counted but not yet sent. */
  ghost function Load(w: Worker): int {
    match w
    case Idle => 0
    case Exited => 0
    case Sending(_, _) => 2
    case Undoing(_, _) => 2
    case _ => 1
  }

  ghost function SeederLoad(s: State): int {
    if s.seeder.Posting? then 1 else 0
  }

  ghost predicate Counted(s: State) {
    s.sh.inFlight == |s.sh.queue| + Sum(s.workers, Load) + SeederLoad(s)
  }

  ghost predicate SeedsLeft(cfg: Config, s: State) {
    if s.seeder.Posting? then s.seeder.n < |cfg.seeds| else s.seeder.n <= |cfg.seeds|
  }

  predicate Decided(c: Coordinator) {
    c.Quiet? || c.Flagged? || c.Waiting? || c.Done?
  }

  ghost predicate Phased(cfg: Config, s: State) {
    && !s.sh.panicked
    && (!s.coordinator.Polling? ==> Seeded(cfg, s))
    && (Decided(s.coordinator) ==> s.sh.inFlight == 0)
    && (s.sh.closed <==> s.coordinator.Flagged? || s.coordinator.Waiting? || s.coordinator.Done?)
    && (s.sh.queueClosed <==> s.coordinator.Waiting? || s.coordinator.Done?)
    && (forall k :: 0 <= k < |s.workers| && s.workers[k].Exited? ==> s.sh.queueClosed)
    && (s.coordinator.Done? ==> forall k :: 0 <= k < |s.workers| ==> s.workers[k].Exited?)
  }

  /** Each worker stands at an entry of the kind its step is for. */
  ghost predicate Placed(cfg: Config, w: Worker) {
    match w
    case Scanning(job, i) => i <= |Listing(cfg, job.path)|
    case Recording(job, i) =>
      i < |Listing(cfg, job.path)| && KindOf(cfg, Listing(cfg, job.path)[i]).GitDirectory?
    case Counting(job, i) => i < |Listing(cfg, job.path)| && Descends(cfg, job, i)
    case Sending(job, i) => i < |Listing(cfg, job.path)| && Descends(cfg, job, i)
    case Undoing(job, i) => i < |Listing(cfg, job.path)| && Descends(cfg, job, i)
    case Skipping(job, i) => i < |Listing(cfg, job.path)| && Descends(cfg, job, i)
    case _ => true
  }

  ghost predicate Safe(cfg: Config, s: State) {
    && Counted(s)
    && SeedsLeft(cfg, s)
    && Phased(cfg, s)
    && forall k :: 0 <= k < |s.workers| ==> Placed(cfg, s.workers[k])
  }

  /** With nothing in flight the queue is empty, every worker is idle and all seeds are sent. */
  lemma NothingInFlight(cfg: Config, s: State)
    requires Safe(cfg, s) && s.sh.inFlight == 0
    ensures s.sh.queue == [] && !s.seeder.Posting?
    ensures forall k :: 0 <= k < |s.workers| ==> s.workers[k].Idle? || s.workers[k].Exited?
  {
    SumNonNegative(s.workers, Load);
    forall k | 0 <= k < |s.workers| ensures s.workers[k].Idle? || s.workers[k].Exited? {
      SumAtLeast(s.workers, k, Load);
    }
  }

  lemma InFlightBounds(s: State, k: nat)
    requires Counted(s) && k < |s.workers|
    ensures s.sh.inFlight >= Load(s.workers[k]) + |s.sh.queue|
  {
    SumAtLeast(s.workers, k, Load);
  }

  /** A worker's own share accounts for every change it makes to the queue and to `inFlight`. */
  lemma StepBalance(cfg: Config, sh: Shared, w: Worker)
    requires !(w.Sending? && sh.queueClosed)
    ensures var m := StepWorker(cfg, sh, w);
            m.sh.inFlight - |m.sh.queue| - Load(m.w) == sh.inFlight - |sh.queue| - Load(w)
  {
  }

  lemma StepPlaced(cfg: Config, sh: Shared, w: Worker)
    requires Placed(cfg, w)
    ensures Placed(cfg, StepWorker(cfg, sh, w).w)
  {
  }

  /** What a worker leaves alone, and when it exits or panics. */
  lemma StepFrame(cfg: Config, sh: Shared, w: Worker)
    ensures var m := StepWorker(cfg, sh, w);
            && m.sh.closed == sh.closed && m.sh.queueClosed == sh.queueClosed
            && (m.sh.panicked ==> sh.panicked || (w.Sending? && sh.queueClosed))
            && (m.w.Exited? ==> w.Exited? || sh.queueClosed)
            && (w.Exited? ==> m.w.Exited?)
            && (Load(w) == 0 && sh.queue == [] ==> m.sh == sh && Load(m.w) == 0)
  {
  }

  lemma WorkerSafe(cfg: Config, s: State, k: nat)
    requires Safe(cfg, s) && k < |s.workers|
    ensures Safe(cfg, FireWorker(cfg, s, k))
  {
    var w := s.workers[k];
    var m := StepWorker(cfg, s.sh, w);
    InFlightBounds(s, k);
    StepBalance(cfg, s.sh, w);
    StepPlaced(cfg, s.sh, w);
    StepFrame(cfg, s.sh, w);
    SumMove(s.workers, k, m.w, Load);
  }

  lemma SafeKept(cfg: Config, s: State, a: Actor)
    requires Safe(cfg, s)
    ensures Safe(cfg, Fire(cfg, s, a))
    ensures |Fire(cfg, s, a).workers| == |s.workers|
  {
    match a
    case Seeding =>
      SumNonNegative(s.workers, Load);
    case Working(k) =>
      if k < |s.workers| {
        WorkerSafe(cfg, s, k);
      }
    case Coordinating =>
  }

  lemma {:induction false} RunSafe(cfg: Config, workers: nat, schedule: seq<Actor>)
    ensures Safe(cfg, Run(cfg, workers, schedule))
    ensures |Run(cfg, workers, schedule).workers| == workers
  {
    if schedule == [] {
      SumZero(Initial(workers).workers, Load);
    } else {
      RunSafe(cfg, workers, schedule[..|schedule| - 1]);
      SafeKept(cfg, Run(cfg, workers, schedule[..|schedule| - 1]), schedule[|schedule| - 1]);
    }
  }

  /** In every interleaving `inFlight` is exactly the queued jobs, the jobs held by workers and
      the children or seeds counted but not yet sent. */
  lemma InFlightCounts(cfg: Config, workers: nat, schedule: seq<Actor>)
    ensures var s := Run(cfg, workers, schedule);
            s.sh.inFlight == |s.sh.queue| + Sum(s.workers, Load) + SeederLoad(s)
  {
    RunSafe(cfg, workers, schedule);
  }

  /** No send, by a worker or by the seeding loop, ever meets a closed queue. */
  lemma NoSendOnClosedQueue(cfg: Config, workers: nat, schedule: seq<Actor>)
    ensures var s := Run(cfg, workers, schedule);
            && !s.sh.panicked
            && (s.sh.queueClosed ==> !s.seeder.Posting?)
            && (s.sh.queueClosed ==> forall k :: 0 <= k < |s.workers| ==> s.workers[k].Idle? || s.workers[k].Exited?)
  {
    RunSafe(cfg, workers, schedule);
    var s := Run(cfg, workers, schedule);
    if s.sh.queueClosed {
      NothingInFlight(cfg, s);
    }
  }

  /** Once the coordinator has decided to close, the scan is over and stays over: whatever is
      scheduled next, the queue is empty, nobody works, and nothing found or counted changes. */
  lemma {:induction false} DecisionIsFinal(cfg: Config, workers: nat, before: seq<Actor>, after: seq<Actor>)
    requires Decided(Run(cfg, workers, before).coordinator)
    ensures var s, t := Run(cfg, workers, before), Exec(cfg, Run(cfg, workers, before), after);
            && Safe(cfg, t) && Decided(t.coordinator) && t.sh.inFlight == 0 && t.sh.queue == []
            && (forall k :: 0 <= k < |t.workers| ==> t.workers[k].Idle? || t.workers[k].Exited?)
            && t.sh.results == s.sh.results && t.sh.seen == s.sh.seen && t.sh.scanned == s.sh.scanned
            && t.sh.scannedCount == s.sh.scannedCount && t.sh.skippedCount == s.sh.skippedCount
            && t.sh.dropped == s.sh.dropped
  {
    RunSafe(cfg, workers, before);
    if after == [] {
      NothingInFlight(cfg, Run(cfg, workers, before));
    } else {
      DecisionIsFinal(cfg, workers, before, after[..|after| - 1]);
      var u := Exec(cfg, Run(cfg, workers, before), after[..|after| - 1]);
      var t := Fire(cfg, u, after[|after| - 1]);
      NothingInFlight(cfg, u);
      SafeKept(cfg, u, after[|after| - 1]);
      NothingInFlight(cfg, t);
    }
  }
}
