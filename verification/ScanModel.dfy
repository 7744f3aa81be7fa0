/** The parallel repository scan as interleaved atomic steps.

    Every access to a variable the goroutines share (the job queue, `inFlight`, `closed`, `seen`,
    `results`, the two counters) is one step of one actor: the seeding loop, a worker, or the
    coordinator that decides when to close the queue.  A schedule is any sequence of actors, so a
    statement about every schedule is a statement about every interleaving.  An actor that cannot
    move (an empty open queue, a full queue for the seeding loop) leaves the state unchanged. */
module ScanModel {

  import Paths
  import Text

  const QUEUE_CAPACITY: nat := 10000

  datatype Entry = Entry(name: string, symlink: bool, dir: bool)

  datatype Job = Job(path: string, depth: nat)

  datatype Kind = NotDirectory | GitDirectory | SkippedByName | Descend

  /** What a scan reads and never changes.  `fs` lists each readable directory; a path outside it
      is one `ReadDir` fails on.  `seeds` are the search paths that are directories.  How entries
      are classified, how a child path is formed and when two paths count as one are functions, so
      that the protocol is proved whatever they are; `Standard` gives the daemon's own. */
  datatype Config = Config(maxDepth: nat, fs: map<string, seq<Entry>>, seeds: seq<string>,
                           kind: Entry -> Kind, join: (string, string) -> string,
                           normal: string -> string)

  function StandardKind(ignored: set<string>, lower: char -> char, e: Entry): Kind {
    if e.symlink then NotDirectory
    else if !e.dir then NotDirectory
    else if e.name == ".git" then GitDirectory
    else if Text.Lowered(lower, e.name) in ignored then SkippedByName
    else if "." <= e.name then SkippedByName
    else Descend
  }

  function Standard(maxDepth: nat, fs: map<string, seq<Entry>>, seeds: seq<string>,
                    ignored: set<string>, lower: char -> char): Config {
    Config(maxDepth, fs, seeds,
           e => StandardKind(ignored, lower, e),
           (path, name) => Paths.Join([path, name]),
           path => Text.Lowered(lower, Paths.Clean(path)))
  }

  function Listing(cfg: Config, path: string): seq<Entry> {
    if path in cfg.fs then cfg.fs[path] else []
  }

  function KindOf(cfg: Config, e: Entry): Kind {
    cfg.kind(e)
  }

  function Normal(cfg: Config, path: string): string {
    cfg.normal(path)
  }

  function Child(cfg: Config, job: Job, e: Entry): Job {
    Job(cfg.join(job.path, e.name), job.depth + 1)
  }

  function SeedJob(path: string): Job {
    Job(path, 0)
  }

  /** Where a worker stands inside its loop; `i` is the directory entry it is looking at. */
  datatype Worker =
    | Idle
    | Taken(job: Job)             // received, depth not yet compared
    | Scanning(job: Job, i: nat)  // about to look at entry i
    | Recording(job: Job, i: nat) // marked in `seen`, not yet appended to `results`
    | Counting(job: Job, i: nat)  // read `closed` as 0, about to increment inFlight
    | Sending(job: Job, i: nat)   // inFlight incremented, about to try the send
    | Undoing(job: Job, i: nat)   // queue was full, about to decrement inFlight
    | Skipping(job: Job, i: nat)  // about to increment skippedCount
    | Finishing(job: Job)         // processDirectory returned, about to decrement inFlight
    | Exited

  datatype Seeder =
    | Next(n: nat)   // about to increment inFlight for seed n, or past the last one
    | Posting(n: nat) // counted, about to send seed n

  datatype Coordinator =
    | Polling
    | SawLength(length: nat)
    | Quiet    // read length 0 and inFlight 0
    | Flagged  // stored closed = 1
    | Waiting  // closed the queue, waiting for the workers
    | Done

  /** The variables the goroutines share.  The last three fields are history: they record what
      happened and no step reads them. */
  datatype Shared = Shared(
    queue: seq<Job>, closed: bool, queueClosed: bool, panicked: bool, inFlight: int,
    seen: set<string>, results: seq<string>, scannedCount: nat, skippedCount: nat,
    scanned: seq<Job>, tooDeep: set<Job>, dropped: set<Job>)

  datatype State = State(sh: Shared, workers: seq<Worker>, seeder: Seeder, coordinator: Coordinator)

  datatype Actor = Seeding | Working(k: nat) | Coordinating

  function Initial(workers: nat): State {
    State(Shared([], false, false, false, 0, {}, [], 0, 0, [], {}, {}),
          seq(workers, _ => Idle), Next(0), Polling)
  }

  predicate Seeded(cfg: Config, s: State) {
    s.seeder.Next? && s.seeder.n >= |cfg.seeds|
  }

  function FireSeeder(cfg: Config, s: State): State {
    match s.seeder
    case Next(n) =>
      if n < |cfg.seeds| then
        s.(sh := s.sh.(inFlight := s.sh.inFlight + 1), seeder := Posting(n))
      else s
    case Posting(n) =>
      if n >= |cfg.seeds| then s
      else if s.sh.queueClosed then s.(sh := s.sh.(panicked := true))
      else if |s.sh.queue| < QUEUE_CAPACITY then
        s.(sh := s.sh.(queue := s.sh.queue + [SeedJob(cfg.seeds[n])]), seeder := Next(n + 1))
      else s
  }

  /** The shared variables and the worker after one step of that worker. */
  datatype Move = Move(sh: Shared, w: Worker)

  /** Looking at entry `i` of the directory of `job`. */
  function LookAt(cfg: Config, sh: Shared, job: Job, i: nat): Move
    requires i < |Listing(cfg, job.path)|
  {
    match KindOf(cfg, Listing(cfg, job.path)[i])
    case NotDirectory => Move(sh, Scanning(job, i + 1))
    case GitDirectory =>
      if Normal(cfg, job.path) in sh.seen then Move(sh, Scanning(job, i + 1))
      else Move(sh.(seen := sh.seen + {Normal(cfg, job.path)}), Recording(job, i))
    case SkippedByName => Move(sh.(skippedCount := sh.skippedCount + 1), Scanning(job, i + 1))
    case Descend => Move(sh, if sh.closed then Skipping(job, i) else Counting(job, i))
  }

  function TrySend(cfg: Config, sh: Shared, job: Job, i: nat): Move
    requires i < |Listing(cfg, job.path)|
  {
    if sh.queueClosed then Move(sh.(panicked := true), Sending(job, i))
    else if |sh.queue| < QUEUE_CAPACITY then
      Move(sh.(queue := sh.queue + [ChildAt(cfg, job, i)]), Scanning(job, i + 1))
    else
      Move(sh.(dropped := sh.dropped + {ChildAt(cfg, job, i)}), Undoing(job, i))
  }

  function StepWorker(cfg: Config, sh: Shared, w: Worker): Move {
    match w
    case Idle =>
      if sh.queue != [] then Move(sh.(queue := sh.queue[1..]), Taken(sh.queue[0]))
      else if sh.queueClosed then Move(sh, Exited)
      else Move(sh, w)
    case Taken(job) =>
      if cfg.maxDepth > 0 && job.depth > cfg.maxDepth then
        Move(sh.(skippedCount := sh.skippedCount + 1, tooDeep := sh.tooDeep + {job}), Finishing(job))
      else
        Move(sh.(scannedCount := sh.scannedCount + 1, scanned := sh.scanned + [job]), Scanning(job, 0))
    case Scanning(job, i) =>
      if i < |Listing(cfg, job.path)| then LookAt(cfg, sh, job, i) else Move(sh, Finishing(job))
    case Recording(job, i) =>
      Move(sh.(results := sh.results + [job.path]), Scanning(job, i + 1))
    case Counting(job, i) => Move(sh.(inFlight := sh.inFlight + 1), Sending(job, i))
    case Sending(job, i) =>
      if i < |Listing(cfg, job.path)| then TrySend(cfg, sh, job, i) else Move(sh, w)
    case Undoing(job, i) => Move(sh.(inFlight := sh.inFlight - 1), Skipping(job, i))
    case Skipping(job, i) => Move(sh.(skippedCount := sh.skippedCount + 1), Scanning(job, i + 1))
    case Finishing(job) => Move(sh.(inFlight := sh.inFlight - 1), Idle)
    case Exited => Move(sh, w)
  }

  function FireWorker(cfg: Config, s: State, k: nat): State
    requires k < |s.workers|
  {
    var m := StepWorker(cfg, s.sh, s.workers[k]);
    s.(sh := m.sh, workers := s.workers[k := m.w])
  }

  /** The coordinator starts once seeding is over.  It reads the queue length and `inFlight` in
      two separate steps. */
  function FireCoordinator(cfg: Config, s: State): State {
    if !Seeded(cfg, s) then s
    else match s.coordinator
      case Polling => s.(coordinator := SawLength(|s.sh.queue|))
      case SawLength(length) =>
        s.(coordinator := if length == 0 && s.sh.inFlight == 0 then Quiet else Polling)
      case Quiet => s.(sh := s.sh.(closed := true), coordinator := Flagged)
      case Flagged => s.(sh := s.sh.(queueClosed := true), coordinator := Waiting)
      case Waiting =>
        if forall k :: 0 <= k < |s.workers| ==> s.workers[k].Exited? then s.(coordinator := Done) else s
      case Done => s
  }

  function Fire(cfg: Config, s: State, a: Actor): State {
    match a
    case Seeding => FireSeeder(cfg, s)
    case Working(k) => if k < |s.workers| then FireWorker(cfg, s, k) else s
    case Coordinating => FireCoordinator(cfg, s)
  }

  function Exec(cfg: Config, s: State, schedule: seq<Actor>): State
    decreases |schedule|
  {
    if schedule == [] then s
    else Fire(cfg, Exec(cfg, s, schedule[..|schedule| - 1]), schedule[|schedule| - 1])
  }

  function Run(cfg: Config, workers: nat, schedule: seq<Actor>): State {
    Exec(cfg, Initial(workers), schedule)
  }

  /** The directories a scan may visit: a seed, or an entry to descend into of the one before. */
  ghost predicate Trail(cfg: Config, trail: seq<Job>) {
    && |trail| > 0
    && trail[0].depth == 0 && trail[0].path in cfg.seeds
    && forall n :: 0 < n < |trail| ==> ChildOf(cfg, trail[n - 1], trail[n])
  }

  ghost predicate ChildOf(cfg: Config, parent: Job, job: Job) {
    exists i :: 0 <= i < |Listing(cfg, parent.path)| && Descends(cfg, parent, i) && job == ChildAt(cfg, parent, i)
  }

  predicate Descends(cfg: Config, job: Job, i: nat)
    requires i < |Listing(cfg, job.path)|
  {
    KindOf(cfg, Listing(cfg, job.path)[i]).Descend?
  }

  function ChildAt(cfg: Config, job: Job, i: nat): Job
    requires i < |Listing(cfg, job.path)|
  {
    Child(cfg, job, Listing(cfg, job.path)[i])
  }

  predicate HasGit(cfg: Config, path: string) {
    exists i :: 0 <= i < |Listing(cfg, path)| && KindOf(cfg, Listing(cfg, path)[i]).GitDirectory?
  }

  /** Sums over the workers, with the effect of one worker moving. */
  ghost function Sum(ws: seq<Worker>, f: Worker -> int): int {
    if ws == [] then 0 else f(ws[0]) + Sum(ws[1..], f)
  }

  lemma {:induction false} SumMove(ws: seq<Worker>, k: nat, w: Worker, f: Worker -> int)
    requires k < |ws|
    ensures Sum(ws[k := w], f) == Sum(ws, f) - f(ws[k]) + f(w)
  {
    if k == 0 {
      assert ws[k := w][1..] == ws[1..];
    } else {
      SumMove(ws[1..], k - 1, w, f);
      assert ws[k := w][1..] == ws[1..][k - 1 := w];
    }
  }

  lemma {:induction false} SumAtLeast(ws: seq<Worker>, k: nat, f: Worker -> int)
    requires k < |ws|
    requires forall j :: 0 <= j < |ws| ==> f(ws[j]) >= 0
    ensures Sum(ws, f) >= f(ws[k])
    ensures Sum(ws[1..], f) >= 0
  {
    SumNonNegative(ws[1..], f);
    if k > 0 {
      SumAtLeast(ws[1..], k - 1, f);
    }
  }

  lemma {:induction false} SumNonNegative(ws: seq<Worker>, f: Worker -> int)
    requires forall j :: 0 <= j < |ws| ==> f(ws[j]) >= 0
    ensures Sum(ws, f) >= 0
  {
    if ws != [] {
      SumNonNegative(ws[1..], f);
    }
  }

  lemma {:induction false} SumZero(ws: seq<Worker>, f: Worker -> int)
    requires forall j :: 0 <= j < |ws| ==> f(ws[j]) == 0
    ensures Sum(ws, f) == 0
  {
    if ws != [] {
      SumZero(ws[1..], f);
    }
  }
}
