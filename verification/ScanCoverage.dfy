/** What a finished scan has visited, found and counted. */
module ScanCoverage {

  import opened ScanModel
  import opened ScanSafety

  // ---- Conservation of the counters -------------------------------------------------------

  predicate IsChildDirectory(cfg: Config, e: Entry) {
    KindOf(cfg, e).SkippedByName? || KindOf(cfg, e).Descend?
  }

  /** The child directories among the entries of `path` from entry `i` on. */
  function ChildDirectories(cfg: Config, path: string, i: nat): nat
    decreases |Listing(cfg, path)| - i
  {
    if i >= |Listing(cfg, path)| then 0
    else (if IsChildDirectory(cfg, Listing(cfg, path)[i]) then 1 else 0) + ChildDirectories(cfg, path, i + 1)
  }

  function AllChildDirectories(cfg: Config, jobs: seq<Job>): nat {
    if jobs == [] then 0
    else AllChildDirectories(cfg, jobs[..|jobs| - 1]) + ChildDirectories(cfg, jobs[|jobs| - 1].path, 0)
  }

  /** What a worker still has to count: its job, or the rest of the directory it is in. */
  ghost function Owed(cfg: Config, w: Worker): int {
    match w
    case Taken(_) => 1
    case Scanning(job, i) => ChildDirectories(cfg, job.path, i)
    case Recording(job, i) => ChildDirectories(cfg, job.path, i)
    case Counting(job, i) => ChildDirectories(cfg, job.path, i)
    case Sending(job, i) => ChildDirectories(cfg, job.path, i)
    case Undoing(job, i) => ChildDirectories(cfg, job.path, i)
    case Skipping(job, i) => ChildDirectories(cfg, job.path, i)
    case _ => 0
  }

  ghost function OwedBy(cfg: Config): Worker -> int {
    w => Owed(cfg, w)
  }

  ghost predicate Balanced(cfg: Config, s: State) {
    && s.sh.scannedCount == |s.sh.scanned|
    && s.sh.scannedCount + s.sh.skippedCount + |s.sh.queue| + Sum(s.workers, OwedBy(cfg))
       == s.seeder.n + AllChildDirectories(cfg, s.sh.scanned)
  }

  lemma AllChildDirectoriesSnoc(cfg: Config, jobs: seq<Job>, job: Job)
    ensures AllChildDirectories(cfg, jobs + [job])
            == AllChildDirectories(cfg, jobs) + ChildDirectories(cfg, job.path, 0)
  {
    assert (jobs + [job])[..|jobs|] == jobs;
  }

  /** What a step may not change, with the share `owed` of the worker taken from `Owed`. */
  ghost function Account(cfg: Config, sh: Shared, owed: int): int {
    sh.scannedCount + sh.skippedCount + |sh.queue| + owed - AllChildDirectories(cfg, sh.scanned)
  }

  lemma LookOwed(cfg: Config, sh: Shared, job: Job, i: nat)
    requires i < |Listing(cfg, job.path)|
    ensures var m := LookAt(cfg, sh, job, i);
            && m.sh.scannedCount == sh.scannedCount && m.sh.scanned == sh.scanned
            && Account(cfg, m.sh, Owed(cfg, m.w)) == Account(cfg, sh, ChildDirectories(cfg, job.path, i))
  {
    match KindOf(cfg, Listing(cfg, job.path)[i])
    case NotDirectory =>
    case GitDirectory =>
    case SkippedByName =>
    case Descend =>
  }

  lemma SendOwed(cfg: Config, sh: Shared, job: Job, i: nat)
    requires i < |Listing(cfg, job.path)| && Descends(cfg, job, i) && !sh.queueClosed
    ensures var m := TrySend(cfg, sh, job, i);
            && m.sh.scannedCount == sh.scannedCount && m.sh.scanned == sh.scanned
            && Account(cfg, m.sh, Owed(cfg, m.w)) == Account(cfg, sh, ChildDirectories(cfg, job.path, i))
  {
  }

  lemma TakenOwed(cfg: Config, sh: Shared, job: Job)
    requires sh.scannedCount == |sh.scanned|
    ensures var m := StepWorker(cfg, sh, Taken(job));
            && m.sh.scannedCount == |m.sh.scanned|
            && Account(cfg, m.sh, Owed(cfg, m.w)) == Account(cfg, sh, 1)
  {
    var m := StepWorker(cfg, sh, Taken(job));
    if m.w.Scanning? {
      AllChildDirectoriesSnoc(cfg, sh.scanned, job);
      assert m.sh.scanned == sh.scanned + [job];
      assert Owed(cfg, m.w) == ChildDirectories(cfg, job.path, 0);
    }
  }

  lemma StepOwed(cfg: Config, sh: Shared, w: Worker)
    requires Placed(cfg, w) && !(w.Sending? && sh.queueClosed)
    requires sh.scannedCount == |sh.scanned|
    ensures var m := StepWorker(cfg, sh, w);
            && m.sh.scannedCount == |m.sh.scanned|
            && Account(cfg, m.sh, Owed(cfg, m.w)) == Account(cfg, sh, Owed(cfg, w))
  {
    match w
    case Taken(job) => TakenOwed(cfg, sh, job);
    case Scanning(job, i) => if i < |Listing(cfg, job.path)| { LookOwed(cfg, sh, job, i); }
    case Recording(job, i) =>
    case Sending(job, i) => SendOwed(cfg, sh, job, i);
    case Skipping(job, i) =>
    case _ =>
  }

  // ---- Each repository once ---------------------------------------------------------------

  function Hits(cfg: Config, results: seq<string>, p: string): nat {
    if results == [] then 0
    else Hits(cfg, results[..|results| - 1], p)
         + if Normal(cfg, results[|results| - 1]) == p then 1 else 0
  }

  ghost function Claim(cfg: Config, p: string, w: Worker): int {
    if w.Recording? && Normal(cfg, w.job.path) == p then 1 else 0
  }

  ghost function ClaimOn(cfg: Config, p: string): Worker -> int {
    w => Claim(cfg, p, w)
  }

  ghost function Mark(seen: set<string>, p: string): int {
    if p in seen then 1 else 0
  }

  ghost predicate RecordedOnce(cfg: Config, s: State, p: string) {
    Hits(cfg, s.sh.results, p) + Sum(s.workers, ClaimOn(cfg, p)) == Mark(s.sh.seen, p)
  }

  lemma LookRecorded(cfg: Config, sh: Shared, job: Job, i: nat, p: string)
    requires i < |Listing(cfg, job.path)|
    ensures var m := LookAt(cfg, sh, job, i);
            m.sh.results == sh.results
            && Claim(cfg, p, m.w) - Mark(m.sh.seen, p) == -Mark(sh.seen, p)
  {
  }

  lemma SendRecorded(cfg: Config, sh: Shared, job: Job, i: nat, p: string)
    requires i < |Listing(cfg, job.path)|
    ensures var m := TrySend(cfg, sh, job, i);
            m.sh.results == sh.results && m.sh.seen == sh.seen && Claim(cfg, p, m.w) == 0
  {
  }

  lemma HitsSnoc(cfg: Config, results: seq<string>, path: string, p: string)
    ensures Hits(cfg, results + [path], p) == Hits(cfg, results, p) + if Normal(cfg, path) == p then 1 else 0
  {
    assert (results + [path])[..|results|] == results;
  }

  lemma StepRecorded(cfg: Config, sh: Shared, w: Worker, p: string)
    ensures var m := StepWorker(cfg, sh, w);
            Hits(cfg, m.sh.results, p) + Claim(cfg, p, m.w) - Mark(m.sh.seen, p)
            == Hits(cfg, sh.results, p) + Claim(cfg, p, w) - Mark(sh.seen, p)
  {
    match w
    case Scanning(job, i) => if i < |Listing(cfg, job.path)| { LookRecorded(cfg, sh, job, i, p); }
    case Recording(job, _) => HitsSnoc(cfg, sh.results, job.path, p);
    case Sending(job, i) => if i < |Listing(cfg, job.path)| { SendRecorded(cfg, sh, job, i, p); }
    case _ =>
  }

  // ---- Nothing is forgotten ---------------------------------------------------------------

  /** A job is accounted for while it is queued or held, and after it was scanned, found too deep
      or dropped. */
  ghost predicate Known(s: State, job: Job) {
    || job in s.sh.queue
    || Taken(job) in s.workers
    || job in s.sh.scanned
    || job in s.sh.tooDeep
    || job in s.sh.dropped
  }

  ghost predicate EntryDone(cfg: Config, s: State, job: Job, i: nat)
    requires i < |Listing(cfg, job.path)|
  {
    && (KindOf(cfg, Listing(cfg, job.path)[i]).GitDirectory? ==> Normal(cfg, job.path) in s.sh.seen)
    && (Descends(cfg, job, i) ==> Known(s, ChildAt(cfg, job, i)))
  }

  ghost predicate DoneBefore(cfg: Config, s: State, job: Job, end: nat) {
    && end <= |Listing(cfg, job.path)|
    && forall i :: 0 <= i < end ==> EntryDone(cfg, s, job, i)
  }

  predicate InDirectory(w: Worker) {
    w.Scanning? || w.Recording? || w.Counting? || w.Sending? || w.Undoing? || w.Skipping?
  }

  ghost predicate Progress(cfg: Config, s: State, w: Worker) {
    && (InDirectory(w) ==> w.job in s.sh.scanned && DoneBefore(cfg, s, w.job, w.i))
    && (w.Recording? ==> Normal(cfg, w.job.path) in s.sh.seen)
    && (w.Undoing? || w.Skipping? ==> w.i < |Listing(cfg, w.job.path)|
                                      && ChildAt(cfg, w.job, w.i) in s.sh.dropped)
  }

  ghost predicate Visited(cfg: Config, s: State, job: Job) {
    || DoneBefore(cfg, s, job, |Listing(cfg, job.path)|)
    || exists k :: 0 <= k < |s.workers| && InDirectory(s.workers[k]) && s.workers[k].job == job
  }

  ghost predicate Covered(cfg: Config, s: State) {
    && (forall n :: 0 <= n < s.seeder.n && n < |cfg.seeds| ==> Known(s, SeedJob(cfg.seeds[n])))
    && (forall k :: 0 <= k < |s.workers| ==> Progress(cfg, s, s.workers[k]))
    && (forall job :: job in s.sh.scanned ==> Visited(cfg, s, job))
    && (forall job :: job in s.sh.tooDeep ==> cfg.maxDepth > 0 && job.depth > cfg.maxDepth)
  }

  /** Accounting only grows: every step keeps what was known, seen, scanned or dropped. */
  ghost predicate Grows(s: State, t: State) {
    && (forall job :: Known(s, job) ==> Known(t, job))
    && s.sh.seen <= t.sh.seen
    && (forall job :: job in s.sh.scanned ==> job in t.sh.scanned)
    && s.sh.dropped <= t.sh.dropped
  }

  lemma StepGrows(cfg: Config, sh: Shared, w: Worker)
    ensures var m := StepWorker(cfg, sh, w);
            && sh.seen <= m.sh.seen && sh.tooDeep <= m.sh.tooDeep && sh.dropped <= m.sh.dropped
            && (m.sh.scanned == sh.scanned || (w.Taken? && m.sh.scanned == sh.scanned + [w.job]))
            && (m.sh.queue == sh.queue
                || (w.Idle? && sh.queue == [sh.queue[0]] + m.sh.queue && m.w == Taken(sh.queue[0]))
                || (exists job :: m.sh.queue == sh.queue + [job]))
            && (w.Taken? ==> w.job in m.sh.scanned || w.job in m.sh.tooDeep)
  {
    if w.Sending? && w.i < |Listing(cfg, w.job.path)| && !sh.queueClosed && |sh.queue| < QUEUE_CAPACITY {
      assert StepWorker(cfg, sh, w).sh.queue == sh.queue + [ChildAt(cfg, w.job, w.i)];
    }
  }

  lemma WorkerGrows(cfg: Config, s: State, k: nat)
    requires k < |s.workers|
    ensures Grows(s, FireWorker(cfg, s, k))
  {
    var t := FireWorker(cfg, s, k);
    StepGrows(cfg, s.sh, s.workers[k]);
    forall job | Known(s, job) ensures Known(t, job) {
      if Taken(job) in s.workers {
        var j :| 0 <= j < |s.workers| && s.workers[j] == Taken(job);
        if j != k {
          assert t.workers[j] == Taken(job);
        }
      } else if job in s.sh.queue && job !in t.sh.queue {
        assert t.workers[k] == Taken(job);
      }
    }
  }

  lemma GrowsKeeps(cfg: Config, s: State, t: State, job: Job, end: nat)
    requires Grows(s, t) && DoneBefore(cfg, s, job, end)
    ensures DoneBefore(cfg, t, job, end)
  {
    forall i | 0 <= i < end ensures EntryDone(cfg, t, job, i) {
      assert EntryDone(cfg, s, job, i);
    }
  }

  lemma OtherProgress(cfg: Config, s: State, t: State, w: Worker)
    requires Grows(s, t) && Progress(cfg, s, w)
    ensures Progress(cfg, t, w)
  {
    if InDirectory(w) {
      GrowsKeeps(cfg, s, t, w.job, w.i);
    }
  }

  /** The worker that moved has dealt with every entry it has passed. */
  lemma OwnProgress(cfg: Config, s: State, k: nat)
    requires Safe(cfg, s) && Covered(cfg, s) && k < |s.workers|
    ensures Progress(cfg, FireWorker(cfg, s, k), FireWorker(cfg, s, k).workers[k])
  {
    var w := s.workers[k];
    var t := FireWorker(cfg, s, k);
    var v := t.workers[k];
    assert Progress(cfg, s, w) && Placed(cfg, w);
    WorkerGrows(cfg, s, k);
    InFlightBounds(s, k);
    if InDirectory(w) && InDirectory(v) {
      GrowsKeeps(cfg, s, t, w.job, w.i);
      if v.i > w.i {
        assert EntryDone(cfg, t, w.job, w.i);
      }
    }
  }

  /** A worker stays with its directory until it has looked at every entry. */
  lemma StepInDirectory(cfg: Config, sh: Shared, w: Worker)
    requires Placed(cfg, w)
    ensures var m := StepWorker(cfg, sh, w);
            && (InDirectory(w) ==> (InDirectory(m.w) && m.w.job == w.job) || w.i == |Listing(cfg, w.job.path)|)
            && (m.sh.scanned == sh.scanned
                || (w.Taken? && m.sh.scanned == sh.scanned + [w.job] && m.w == Scanning(w.job, 0)))
  {
  }

  lemma WorkerAt(cfg: Config, s: State, k: nat, job: Job)
    requires k < |s.workers| && InDirectory(s.workers[k]) && s.workers[k].job == job
    ensures Visited(cfg, s, job)
  {
  }

  lemma WorkerVisited(cfg: Config, s: State, k: nat, job: Job)
    requires Safe(cfg, s) && Covered(cfg, s) && k < |s.workers|
    requires job in FireWorker(cfg, s, k).sh.scanned
    ensures Visited(cfg, FireWorker(cfg, s, k), job)
  {
    var t := FireWorker(cfg, s, k);
    StepInDirectory(cfg, s.sh, s.workers[k]);
    if job !in s.sh.scanned {
      WorkerAt(cfg, t, k, job);
    } else {
      WorkerGrows(cfg, s, k);
      assert Visited(cfg, s, job);
      StillVisited(cfg, s, k, job);
    }
  }

  lemma StillVisited(cfg: Config, s: State, k: nat, job: Job)
    requires k < |s.workers| && Placed(cfg, s.workers[k]) && Progress(cfg, s, s.workers[k])
    requires Visited(cfg, s, job) && Grows(s, FireWorker(cfg, s, k))
    ensures Visited(cfg, FireWorker(cfg, s, k), job)
  {
    var t := FireWorker(cfg, s, k);
    if DoneBefore(cfg, s, job, |Listing(cfg, job.path)|) {
      GrowsKeeps(cfg, s, t, job, |Listing(cfg, job.path)|);
    } else {
      var j :| 0 <= j < |s.workers| && InDirectory(s.workers[j]) && s.workers[j].job == job;
      StepInDirectory(cfg, s.sh, s.workers[k]);
      WorkerAt(cfg, t, j, job);
    }
  }

  lemma WorkerCovered(cfg: Config, s: State, k: nat)
    requires Safe(cfg, s) && Covered(cfg, s) && k < |s.workers|
    ensures Covered(cfg, FireWorker(cfg, s, k))
  {
    var t := FireWorker(cfg, s, k);
    WorkerGrows(cfg, s, k);
    forall j | 0 <= j < |t.workers| ensures Progress(cfg, t, t.workers[j]) {
      if j == k { OwnProgress(cfg, s, k); } else { OtherProgress(cfg, s, t, s.workers[j]); }
    }
    forall job | job in t.sh.scanned ensures Visited(cfg, t, job) {
      WorkerVisited(cfg, s, k, job);
    }
  }

  /** The seeding loop and the coordinator move no worker. */
  lemma OthersCovered(cfg: Config, s: State, t: State)
    requires Covered(cfg, s) && Grows(s, t)
    requires t.workers == s.workers && t.sh.scanned == s.sh.scanned && t.sh.tooDeep == s.sh.tooDeep
    requires forall n :: 0 <= n < t.seeder.n && n < |cfg.seeds| ==> n < s.seeder.n || Known(t, SeedJob(cfg.seeds[n]))
    ensures Covered(cfg, t)
  {
    forall k | 0 <= k < |t.workers| ensures Progress(cfg, t, t.workers[k]) {
      OtherProgress(cfg, s, t, s.workers[k]);
    }
    forall job | job in t.sh.scanned ensures Visited(cfg, t, job) {
      if DoneBefore(cfg, s, job, |Listing(cfg, job.path)|) {
        GrowsKeeps(cfg, s, t, job, |Listing(cfg, job.path)|);
      }
    }
  }

  // ---- Nothing outside the tree is entered ------------------------------------------------

  ghost predicate Reachable(cfg: Config, job: Job) {
    exists trail :: Trail(cfg, trail) && trail[|trail| - 1] == job
  }

  lemma SeedReachable(cfg: Config, n: nat)
    requires n < |cfg.seeds|
    ensures Reachable(cfg, SeedJob(cfg.seeds[n]))
  {
    assert Trail(cfg, [SeedJob(cfg.seeds[n])]);
  }

  lemma ChildReachable(cfg: Config, job: Job, i: nat)
    requires Reachable(cfg, job) && i < |Listing(cfg, job.path)| && Descends(cfg, job, i)
    ensures Reachable(cfg, ChildAt(cfg, job, i))
  {
    var trail :| Trail(cfg, trail) && trail[|trail| - 1] == job;
    var longer := trail + [ChildAt(cfg, job, i)];
    forall n | 0 < n < |longer| ensures ChildOf(cfg, longer[n - 1], longer[n]) {
      if n < |trail| {
        assert ChildOf(cfg, trail[n - 1], trail[n]);
      }
    }
    assert Trail(cfg, longer);
  }

  ghost predicate Contained(cfg: Config, s: State) {
    && (forall job :: Known(s, job) ==> Reachable(cfg, job))
    && (forall k :: 0 <= k < |s.workers| && InDirectory(s.workers[k]) ==> Reachable(cfg, s.workers[k].job))
    && (forall k :: 0 <= k < |s.workers| && s.workers[k].Recording? ==> HasGit(cfg, s.workers[k].job.path))
    && (forall r :: r in s.sh.results ==> Reported(cfg, s, r))
  }

  ghost predicate Reported(cfg: Config, s: State, path: string) {
    HasGit(cfg, path) && exists job :: job in s.sh.scanned && job.path == path
  }

  lemma StillReported(cfg: Config, s: State, t: State, path: string)
    requires Reported(cfg, s, path) && Grows(s, t)
    ensures Reported(cfg, t, path)
  {
    var job :| job in s.sh.scanned && job.path == path;
    assert job in t.sh.scanned;
  }

  /** Where a worker can be after its step, and what it can have reported. */
  lemma StepStands(cfg: Config, sh: Shared, w: Worker)
    requires Placed(cfg, w)
    ensures var m := StepWorker(cfg, sh, w);
            && (InDirectory(m.w) ==> (InDirectory(w) || w.Taken?) && m.w.job == w.job)
            && (m.w.Recording? ==> HasGit(cfg, m.w.job.path))
            && (m.sh.results == sh.results || (w.Recording? && m.sh.results == sh.results + [w.job.path]))
  {
  }

  lemma WorkerContained(cfg: Config, s: State, k: nat)
    requires Safe(cfg, s) && Covered(cfg, s) && Contained(cfg, s) && k < |s.workers|
    ensures Contained(cfg, FireWorker(cfg, s, k))
  {
    var w := s.workers[k];
    var t := FireWorker(cfg, s, k);
    assert Placed(cfg, w) && Progress(cfg, s, w);
    WorkerGrows(cfg, s, k);
    StepStands(cfg, s.sh, w);
    forall job | Known(t, job) ensures Reachable(cfg, job) {
      WorkerReaches(cfg, s, k, job);
    }
    assert w.Taken? ==> Known(s, w.job);
    forall r | r in t.sh.results ensures Reported(cfg, t, r) {
      if r in s.sh.results {
        StillReported(cfg, s, t, r);
      } else {
        assert w.job in t.sh.scanned;
      }
    }
  }

  lemma WorkerReaches(cfg: Config, s: State, k: nat, job: Job)
    requires Safe(cfg, s) && Contained(cfg, s) && k < |s.workers| && Known(FireWorker(cfg, s, k), job)
    ensures Reachable(cfg, job)
  {
    var w := s.workers[k];
    KnownFrom(cfg, s, k, job);
    if !Known(s, job) {
      assert Placed(cfg, w) && InDirectory(w);
      ChildReachable(cfg, w.job, w.i);
    }
  }

  /** A worker makes a job known only by sending or dropping a child. */
  lemma KnownFrom(cfg: Config, s: State, k: nat, job: Job)
    requires Safe(cfg, s) && k < |s.workers| && Known(FireWorker(cfg, s, k), job)
    ensures Known(s, job)
            || (s.workers[k].Sending? && job == ChildAt(cfg, s.workers[k].job, s.workers[k].i))
  {
    var w := s.workers[k];
    var t := FireWorker(cfg, s, k);
    assert Placed(cfg, w);
    if Taken(job) in t.workers {
      var j :| 0 <= j < |t.workers| && t.workers[j] == Taken(job);
      if j != k {
        assert s.workers[j] == Taken(job);
      }
    }
    assert w in s.workers;
  }

  // ---- The invariant over every run -------------------------------------------------------

  ghost predicate Invariant(cfg: Config, s: State) {
    && Safe(cfg, s)
    && Balanced(cfg, s)
    && (forall p :: RecordedOnce(cfg, s, p))
    && Covered(cfg, s)
    && Contained(cfg, s)
  }

  lemma WorkerKeeps(cfg: Config, s: State, k: nat)
    requires Invariant(cfg, s) && k < |s.workers|
    ensures Invariant(cfg, FireWorker(cfg, s, k))
  {
    var w := s.workers[k];
    var m := StepWorker(cfg, s.sh, w);
    var t := FireWorker(cfg, s, k);
    InFlightBounds(s, k);
    WorkerSafe(cfg, s, k);
    StepOwed(cfg, s.sh, w);
    SumMove(s.workers, k, m.w, OwedBy(cfg));
    forall p ensures RecordedOnce(cfg, t, p) {
      assert RecordedOnce(cfg, s, p);
      StepRecorded(cfg, s.sh, w, p);
      SumMove(s.workers, k, m.w, ClaimOn(cfg, p));
    }
    WorkerCovered(cfg, s, k);
    WorkerContained(cfg, s, k);
  }

  lemma SeederKeeps(cfg: Config, s: State)
    requires Invariant(cfg, s)
    ensures Invariant(cfg, FireSeeder(cfg, s))
  {
    var t := FireSeeder(cfg, s);
    SafeKept(cfg, s, Seeding);
    SeederContained(cfg, s);
    forall p ensures RecordedOnce(cfg, t, p) {
      assert RecordedOnce(cfg, s, p);
    }
    assert Grows(s, t);
    OthersCovered(cfg, s, t);
  }

  lemma SeederContained(cfg: Config, s: State)
    requires Safe(cfg, s) && Balanced(cfg, s) && Contained(cfg, s)
    ensures Contained(cfg, FireSeeder(cfg, s)) && Balanced(cfg, FireSeeder(cfg, s))
  {
    if s.seeder.Posting? {
      SeedReachable(cfg, s.seeder.n);
      SumNonNegative(s.workers, Load);
    }
  }

  lemma CoordinatorKeeps(cfg: Config, s: State)
    requires Invariant(cfg, s)
    ensures Invariant(cfg, FireCoordinator(cfg, s))
  {
    var t := FireCoordinator(cfg, s);
    SafeKept(cfg, s, Coordinating);
    CoordinatorAside(cfg, s);
    forall p ensures RecordedOnce(cfg, t, p) {
      assert RecordedOnce(cfg, s, p);
    }
    OthersCovered(cfg, s, t);
  }

  /** The coordinator touches nothing that the scan counts. */
  lemma CoordinatorAside(cfg: Config, s: State)
    ensures var t := FireCoordinator(cfg, s);
            && t.workers == s.workers && t.seeder == s.seeder
            && t.sh == s.sh.(closed := t.sh.closed, queueClosed := t.sh.queueClosed)
            && Grows(s, t)
            && (Balanced(cfg, s) ==> Balanced(cfg, t)) && (Contained(cfg, s) ==> Contained(cfg, t))
  {
  }

  lemma {:induction false} RunInvariant(cfg: Config, workers: nat, schedule: seq<Actor>)
    ensures Invariant(cfg, Run(cfg, workers, schedule))
  {
    if schedule == [] {
      var s := Initial(workers);
      RunSafe(cfg, workers, []);
      SumZero(s.workers, OwedBy(cfg));
      forall p ensures RecordedOnce(cfg, s, p) {
        SumZero(s.workers, ClaimOn(cfg, p));
      }
    } else {
      RunInvariant(cfg, workers, schedule[..|schedule| - 1]);
      var s := Run(cfg, workers, schedule[..|schedule| - 1]);
      match schedule[|schedule| - 1]
      case Seeding => SeederKeeps(cfg, s);
      case Working(k) => if k < |s.workers| { WorkerKeeps(cfg, s, k); }
      case Coordinating => CoordinatorKeeps(cfg, s);
    }
  }

  // ---- A finished scan --------------------------------------------------------------------

  ghost predicate Finished(cfg: Config, workers: nat, schedule: seq<Actor>) {
    Decided(Run(cfg, workers, schedule).coordinator)
  }

  /** Once the decision to close is made, a known job was scanned, dropped, or is too deep. */
  lemma SettledJob(cfg: Config, s: State, job: Job)
    requires Invariant(cfg, s) && Decided(s.coordinator) && Known(s, job)
    ensures job in s.sh.scanned || job in s.sh.tooDeep || job in s.sh.dropped
    ensures job in s.sh.tooDeep ==> cfg.maxDepth > 0 && job.depth > cfg.maxDepth
  {
    NothingInFlight(cfg, s);
  }

  lemma ChildIsKnown(cfg: Config, s: State, parent: Job, child: Job)
    requires Invariant(cfg, s) && Decided(s.coordinator)
    requires parent in s.sh.scanned && ChildOf(cfg, parent, child)
    ensures Known(s, child)
  {
    NothingInFlight(cfg, s);
    assert Visited(cfg, s, parent);
    var i :| 0 <= i < |Listing(cfg, parent.path)| && Descends(cfg, parent, i) && child == ChildAt(cfg, parent, i);
    assert EntryDone(cfg, s, parent, i);
  }

  /** Along a trail within the depth limit, each directory was scanned unless it or one before it
      on the trail was dropped because the queue was full. */
  lemma {:induction false} TrailScanned(cfg: Config, s: State, trail: seq<Job>)
    requires Invariant(cfg, s) && Decided(s.coordinator)
    requires Trail(cfg, trail)
    requires cfg.maxDepth > 0 ==> |trail| - 1 <= cfg.maxDepth
    ensures trail[|trail| - 1] in s.sh.scanned || exists n :: 0 <= n < |trail| && trail[n] in s.sh.dropped
    ensures trail[|trail| - 1].depth == |trail| - 1
  {
    var last := trail[|trail| - 1];
    if |trail| == 1 {
      var n :| 0 <= n < |cfg.seeds| && cfg.seeds[n] == last.path;
      assert Known(s, SeedJob(cfg.seeds[n]));
      SettledJob(cfg, s, last);
    } else {
      var front := trail[..|trail| - 1];
      var parent := front[|front| - 1];
      forall n | 0 < n < |front| ensures ChildOf(cfg, front[n - 1], front[n]) {
        assert ChildOf(cfg, trail[n - 1], trail[n]);
      }
      TrailScanned(cfg, s, front);
      assert ChildOf(cfg, parent, trail[|trail| - 1]);
      if parent in s.sh.scanned {
        ChildIsKnown(cfg, s, parent, last);
        SettledJob(cfg, s, last);
      } else {
        var n :| 0 <= n < |front| && front[n] in s.sh.dropped;
        assert trail[n] in s.sh.dropped;
      }
    }
  }

  /** Completeness: at the end of an uncancelled scan, every directory a trail of entries leads to
      within the depth limit was scanned, unless it or an ancestor on the trail met a full queue. */
  lemma ScanComplete(cfg: Config, workers: nat, schedule: seq<Actor>, trail: seq<Job>)
    requires Finished(cfg, workers, schedule)
    requires Trail(cfg, trail)
    requires cfg.maxDepth > 0 ==> |trail| - 1 <= cfg.maxDepth
    ensures var s := Run(cfg, workers, schedule);
            trail[|trail| - 1] in s.sh.scanned || exists n :: 0 <= n < |trail| && trail[n] in s.sh.dropped
  {
    RunInvariant(cfg, workers, schedule);
    TrailScanned(cfg, Run(cfg, workers, schedule), trail);
  }

  predicate InDepth(cfg: Config, jobs: seq<Job>) {
    cfg.maxDepth > 0 ==> forall job :: job in jobs ==> job.depth <= cfg.maxDepth
  }

  lemma StepInDepth(cfg: Config, sh: Shared, w: Worker)
    requires InDepth(cfg, sh.scanned)
    ensures InDepth(cfg, StepWorker(cfg, sh, w).sh.scanned)
  {
    match w
    case Taken(job) =>
    case _ => assert StepWorker(cfg, sh, w).sh.scanned == sh.scanned;
  }

  lemma {:induction false} ScannedInDepth(cfg: Config, workers: nat, schedule: seq<Actor>)
    ensures InDepth(cfg, Run(cfg, workers, schedule).sh.scanned)
  {
    if schedule != [] {
      ScannedInDepth(cfg, workers, schedule[..|schedule| - 1]);
      var s := Run(cfg, workers, schedule[..|schedule| - 1]);
      match schedule[|schedule| - 1]
      case Working(k) => if k < |s.workers| { StepInDepth(cfg, s.sh, s.workers[k]); }
      case Seeding => assert FireSeeder(cfg, s).sh.scanned == s.sh.scanned;
      case Coordinating => assert FireCoordinator(cfg, s).sh.scanned == s.sh.scanned;
    }
  }

  /** Soundness, at every moment: only directories on such a trail are entered, and only within
      the depth limit. */
  lemma ScanContained(cfg: Config, workers: nat, schedule: seq<Actor>, job: Job)
    requires job in Run(cfg, workers, schedule).sh.scanned
    ensures exists trail :: Trail(cfg, trail) && trail[|trail| - 1] == job
    ensures cfg.maxDepth > 0 ==> job.depth <= cfg.maxDepth
  {
    ScannedInDepth(cfg, workers, schedule);
    RunInvariant(cfg, workers, schedule);
    assert Known(Run(cfg, workers, schedule), job);
    assert Reachable(cfg, job);
  }

  /** Every scanned directory with a `.git` directory is reported exactly once per normalised path,
      and nothing else is reported. */
  lemma RepositoriesOnce(cfg: Config, workers: nat, schedule: seq<Actor>, p: string)
    requires Finished(cfg, workers, schedule)
    ensures var s := Run(cfg, workers, schedule);
            Hits(cfg, s.sh.results, p)
            == if exists job :: job in s.sh.scanned && HasGit(cfg, job.path) && Normal(cfg, job.path) == p
               then 1 else 0
  {
    RunInvariant(cfg, workers, schedule);
    var s := Run(cfg, workers, schedule);
    NothingInFlight(cfg, s);
    SumZero(s.workers, ClaimOn(cfg, p));
    assert RecordedOnce(cfg, s, p);
    if job :| job in s.sh.scanned && HasGit(cfg, job.path) && Normal(cfg, job.path) == p {
      assert Visited(cfg, s, job);
      var i :| 0 <= i < |Listing(cfg, job.path)| && KindOf(cfg, Listing(cfg, job.path)[i]).GitDirectory?;
      assert EntryDone(cfg, s, job, i);
    } else {
      if p in s.sh.seen {
        HitWitness(cfg, s.sh.results, p);
        assert false;
      }
    }
  }

  lemma {:induction false} HitWitness(cfg: Config, results: seq<string>, p: string)
    requires Hits(cfg, results, p) > 0
    ensures exists r :: r in results && Normal(cfg, r) == p
  {
    var last := results[|results| - 1];
    if Normal(cfg, last) != p {
      HitWitness(cfg, results[..|results| - 1], p);
    }
  }

  /** The two counters add up to the seeds plus the child directories of everything scanned. */
  lemma CountersConserved(cfg: Config, workers: nat, schedule: seq<Actor>)
    requires Finished(cfg, workers, schedule)
    ensures var s := Run(cfg, workers, schedule);
            && s.sh.scannedCount == |s.sh.scanned|
            && s.sh.scannedCount + s.sh.skippedCount == |cfg.seeds| + AllChildDirectories(cfg, s.sh.scanned)
  {
    RunInvariant(cfg, workers, schedule);
    var s := Run(cfg, workers, schedule);
    NothingInFlight(cfg, s);
    SumZero(s.workers, OwedBy(cfg));
  }
}
