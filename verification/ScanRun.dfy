/** The scan as an object: the shared variables are its fields and every method is one atomic step
    of one goroutine, updating them in place. */
module ScanRun {

  import opened ScanModel
  import opened ScanSafety
  import opened ScanCoverage

  lemma RunSnoc(cfg: Config, workers: nat, schedule: seq<Actor>, a: Actor)
    ensures Run(cfg, workers, schedule + [a]) == Fire(cfg, Run(cfg, workers, schedule), a)
  {
    var all := schedule + [a];
    assert all[..|all| - 1] == schedule && all[|all| - 1] == a;
  }

  lemma {:induction false} NeverPanics(cfg: Config, workers: nat, schedule: seq<Actor>)
    ensures !Run(cfg, workers, schedule).sh.panicked && |Run(cfg, workers, schedule).workers| == workers
  {
    RunSafe(cfg, workers, schedule);
  }

  /** The results are the scanned repositories, one for each normalised path. */
  ghost predicate EachRepositoryOnce(cfg: Config, results: seq<string>, scanned: seq<Job>) {
    forall p :: Hits(cfg, results, p)
                == if exists job :: job in scanned && HasGit(cfg, job.path) && Normal(cfg, job.path) == p then 1 else 0
  }

  lemma FinalFacts(cfg: Config, workers: nat, schedule: seq<Actor>)
    requires Run(cfg, workers, schedule).coordinator.Done?
    ensures var sh := Run(cfg, workers, schedule).sh;
            && !sh.panicked && sh.queue == [] && sh.inFlight == 0
            && sh.scannedCount + sh.skippedCount == |cfg.seeds| + AllChildDirectories(cfg, sh.scanned)
            && EachRepositoryOnce(cfg, sh.results, sh.scanned)
  {
    RunSafe(cfg, workers, schedule);
    NothingInFlight(cfg, Run(cfg, workers, schedule));
    CountersConserved(cfg, workers, schedule);
    var sh := Run(cfg, workers, schedule).sh;
    forall p
      ensures Hits(cfg, sh.results, p)
              == if exists job :: job in sh.scanned && HasGit(cfg, job.path) && Normal(cfg, job.path) == p then 1 else 0
    {
      RepositoriesOnce(cfg, workers, schedule, p);
    }
  }

  class ParallelScan {
    const cfg: Config
    const workerCount: nat

    var queue: seq<Job>
    var closed: bool
    var queueClosed: bool
    var panicked: bool
    var inFlight: int
    var seen: set<string>
    var results: seq<string>
    var scannedCount: nat
    var skippedCount: nat
    var workers: seq<Worker>
    var seeder: Seeder
    var coordinator: Coordinator

    ghost var scanned: seq<Job>
    ghost var tooDeep: set<Job>
    ghost var dropped: set<Job>
    ghost var schedule: seq<Actor>

    ghost function SharedNow(): Shared
      reads this
    {
      Shared(queue, closed, queueClosed, panicked, inFlight, seen, results, scannedCount, skippedCount,
             scanned, tooDeep, dropped)
    }

    ghost function Model(): State
      reads this
    {
      State(SharedNow(), workers, seeder, coordinator)
    }

    /** The object is where its schedule leads. */
    ghost predicate Valid()
      reads this
    {
      && |workers| == workerCount
      && Model() == Run(cfg, workerCount, schedule)
    }

    constructor (cfg: Config, workerCount: nat)
      ensures Valid() && schedule == []
      ensures this.cfg == cfg && this.workerCount == workerCount
    {
      this.cfg := cfg;
      this.workerCount := workerCount;
      queue, closed, queueClosed, panicked, inFlight := [], false, false, false, 0;
      seen, results, scannedCount, skippedCount := {}, [], 0, 0;
      workers := seq(workerCount, _ => Idle);
      seeder, coordinator := Next(0), Polling;
      scanned, tooDeep, dropped, schedule := [], {}, {}, [];
    }

    /** One step of the loop that seeds the queue. */
    method Seed()
      requires Valid()
      modifies this
      ensures Valid() && schedule == old(schedule) + [Seeding]
      ensures !panicked
    {
      ghost var before := Model();
      match seeder {
        case Next(n) =>
          if n < |cfg.seeds| {
            inFlight := inFlight + 1;
            seeder := Posting(n);
          }
        case Posting(n) =>
          if n < |cfg.seeds| {
            if queueClosed {
              panicked := true;
            } else if |queue| < QUEUE_CAPACITY {
              queue := queue + [SeedJob(cfg.seeds[n])];
              seeder := Next(n + 1);
            }
          }
      }
      assert Model() == FireSeeder(cfg, before);
      Extend(Seeding, before);
    }

    /** One step of worker `k`. */
    method Work(k: nat)
      requires Valid() && k < workerCount
      modifies this
      ensures Valid() && schedule == old(schedule) + [Working(k)]
      ensures !panicked
    {
      ghost var before := Model();
      var w := Step(workers[k]);
      workers := workers[k := w];
      Extend(Working(k), before);
    }

    method Step(at: Worker) returns (w: Worker)
      modifies this`queue, this`panicked, this`inFlight, this`seen, this`results, this`scannedCount,
               this`skippedCount, this`scanned, this`tooDeep, this`dropped
      ensures Move(SharedNow(), w) == StepWorker(cfg, old(SharedNow()), at)
    {
      w := at;
      match at {
        case Idle =>
          if queue != [] {
            w := Taken(queue[0]);
            queue := queue[1..];
          } else if queueClosed {
            w := Exited;
          }
        case Taken(job) =>
          if cfg.maxDepth > 0 && job.depth > cfg.maxDepth {
            skippedCount := skippedCount + 1;
            tooDeep := tooDeep + {job};
            w := Finishing(job);
          } else {
            scannedCount := scannedCount + 1;
            scanned := scanned + [job];
            w := Scanning(job, 0);
          }
        case Scanning(job, i) =>
          if i < |Listing(cfg, job.path)| {
            w := Look(job, i);
          } else {
            w := Finishing(job);
          }
        case Recording(job, i) =>
          results := results + [job.path];
          w := Scanning(job, i + 1);
        case Counting(job, i) =>
          inFlight := inFlight + 1;
          w := Sending(job, i);
        case Sending(job, i) =>
          if i < |Listing(cfg, job.path)| {
            w := Send(job, i);
          }
        case Undoing(job, i) =>
          inFlight := inFlight - 1;
          w := Skipping(job, i);
        case Skipping(job, i) =>
          skippedCount := skippedCount + 1;
          w := Scanning(job, i + 1);
        case Finishing(job) =>
          inFlight := inFlight - 1;
          w := Idle;
        case Exited =>
      }
    }

    /** A worker meeting entry `i`: a repository, a directory to skip, or one to queue. */
    method Look(job: Job, i: nat) returns (w: Worker)
      requires i < |Listing(cfg, job.path)|
      modifies this`seen, this`skippedCount
      ensures Move(SharedNow(), w) == LookAt(cfg, old(SharedNow()), job, i)
    {
      w := Scanning(job, i + 1);
      match KindOf(cfg, Listing(cfg, job.path)[i]) {
        case NotDirectory =>
        case GitDirectory =>
          var repo := Normal(cfg, job.path);
          if repo !in seen {
            seen := seen + {repo};
            w := Recording(job, i);
          }
        case SkippedByName =>
          skippedCount := skippedCount + 1;
        case Descend =>
          w := if closed then Skipping(job, i) else Counting(job, i);
      }
    }

    /** The non-blocking send of a child directory. */
    method Send(job: Job, i: nat) returns (w: Worker)
      requires i < |Listing(cfg, job.path)|
      modifies this`queue, this`panicked, this`dropped
      ensures Move(SharedNow(), w) == TrySend(cfg, old(SharedNow()), job, i)
    {
      var child := ChildAt(cfg, job, i);
      w := Sending(job, i);
      if queueClosed {
        panicked := true;
      } else if |queue| < QUEUE_CAPACITY {
        queue := queue + [child];
        w := Scanning(job, i + 1);
      } else {
        dropped := dropped + {child};
        w := Undoing(job, i);
      }
    }

    /** One step of the coordinator; when it reports the scan over, the results are final. */
    method Coordinate() returns (done: bool)
      requires Valid()
      modifies this
      ensures Valid() && schedule == old(schedule) + [Coordinating]
      ensures done == coordinator.Done?
      ensures done ==> !panicked && queue == [] && inFlight == 0
      ensures done ==> scannedCount + skippedCount == |cfg.seeds| + AllChildDirectories(cfg, scanned)
      ensures done ==> EachRepositoryOnce(cfg, results, scanned)
    {
      ghost var before := Model();
      Poll();
      Extend(Coordinating, before);
      done := coordinator.Done?;
      if done {
        FinalFacts(cfg, workerCount, schedule);
      }
    }

    method Poll()
      modifies this`coordinator, this`closed, this`queueClosed
      ensures Model() == FireCoordinator(cfg, old(Model()))
    {
      if seeder.Next? && seeder.n >= |cfg.seeds| {
        match coordinator {
          case Polling => coordinator := SawLength(|queue|);
          case SawLength(length) =>
            coordinator := if length == 0 && inFlight == 0 then Quiet else Polling;
          case Quiet =>
            closed := true;
            coordinator := Flagged;
          case Flagged =>
            queueClosed := true;
            coordinator := Waiting;
          case Waiting =>
            if forall k :: 0 <= k < |workers| ==> workers[k].Exited? {
              coordinator := Done;
            }
          case Done =>
        }
      }
    }

    ghost method Extend(a: Actor, before: State)
      requires |before.workers| == workerCount
      requires before == Run(cfg, workerCount, schedule) && Model() == Fire(cfg, before, a)
      modifies this`schedule
      ensures schedule == old(schedule) + [a] && Valid() && !panicked
    {
      ghost var now := Model();
      RunSnoc(cfg, workerCount, schedule, a);
      NeverPanics(cfg, workerCount, schedule + [a]);
      assert now == Run(cfg, workerCount, schedule + [a]);
      schedule := schedule + [a];
      assert Model() == now;
    }
  }
}
