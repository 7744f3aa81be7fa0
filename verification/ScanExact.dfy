/** What a finished scan amounts to: the counters it returns certify that nothing was dropped, and then,
    for the daemon's own way of classifying entries, it has entered exactly the directories it should. */
module ScanExact {

  import opened ScanModel
  import opened ScanSafety
  import opened ScanCoverage
  import PathLaws
  import Paths
  import Text

  // ---- The counters certify completeness ----------------------------------------------------

  /** A drop happens only when the queue is full, and everything queued is counted in the end. */
  ghost predicate DropsShow(cfg: Config, s: State) {
    s.sh.dropped != {} ==> s.seeder.n + AllChildDirectories(cfg, s.sh.scanned) > QUEUE_CAPACITY
  }

  lemma ScannedGrows(cfg: Config, sh: Shared, w: Worker)
    ensures AllChildDirectories(cfg, StepWorker(cfg, sh, w).sh.scanned) >= AllChildDirectories(cfg, sh.scanned)
  {
    StepGrows(cfg, sh, w);
    if w.Taken? {
      AllChildDirectoriesSnoc(cfg, sh.scanned, w.job);
    }
  }

  lemma DropNeedsFullQueue(cfg: Config, sh: Shared, w: Worker)
    requires Placed(cfg, w)
    ensures StepWorker(cfg, sh, w).sh.dropped == sh.dropped
            || (|sh.queue| >= QUEUE_CAPACITY && Owed(cfg, w) >= 1)
  {
  }

  lemma WorkerDropsShow(cfg: Config, s: State, k: nat)
    requires Invariant(cfg, s) && DropsShow(cfg, s) && k < |s.workers|
    ensures DropsShow(cfg, FireWorker(cfg, s, k))
  {
    var w := s.workers[k];
    ScannedGrows(cfg, s.sh, w);
    DropNeedsFullQueue(cfg, s.sh, w);
    SumAtLeast(s.workers, k, OwedBy(cfg));
  }

  lemma {:induction false} RunDropsShow(cfg: Config, workers: nat, schedule: seq<Actor>)
    ensures DropsShow(cfg, Run(cfg, workers, schedule))
  {
    if schedule != [] {
      var front := schedule[..|schedule| - 1];
      RunDropsShow(cfg, workers, front);
      var s := Run(cfg, workers, front);
      match schedule[|schedule| - 1]
      case Working(k) =>
        if k < |s.workers| {
          RunInvariant(cfg, workers, front);
          WorkerDropsShow(cfg, s, k);
        }
      case Seeding => assert FireSeeder(cfg, s).sh.dropped == s.sh.dropped && FireSeeder(cfg, s).sh.scanned == s.sh.scanned;
      case Coordinating => assert FireCoordinator(cfg, s).sh.dropped == s.sh.dropped;
    }
  }

  /** The two counters a scan returns tell whether it was complete: a finished scan whose counters add
      up to no more than 10000, the capacity of the queue, has dropped nothing. */
  lemma SmallCountsMeanNoDrop(cfg: Config, workers: nat, schedule: seq<Actor>)
    requires Finished(cfg, workers, schedule)
    requires var sh := Run(cfg, workers, schedule).sh; sh.scannedCount + sh.skippedCount <= 10000
    ensures Run(cfg, workers, schedule).sh.dropped == {}
  {
    CountersConserved(cfg, workers, schedule);
    RunDropsShow(cfg, workers, schedule);
    RunInvariant(cfg, workers, schedule);
    SeedsAllSent(cfg, Run(cfg, workers, schedule));
  }

  lemma SeedsAllSent(cfg: Config, s: State)
    requires Invariant(cfg, s) && Decided(s.coordinator)
    ensures s.seeder.n == |cfg.seeds|
  {
  }

  lemma {:induction false} TrailIsScanned(cfg: Config, workers: nat, schedule: seq<Actor>, trail: seq<Job>)
    requires Finished(cfg, workers, schedule) && Run(cfg, workers, schedule).sh.dropped == {}
    requires Trail(cfg, trail) && (cfg.maxDepth > 0 ==> |trail| - 1 <= cfg.maxDepth)
    ensures trail[|trail| - 1] in Run(cfg, workers, schedule).sh.scanned
  {
    ScanComplete(cfg, workers, schedule, trail);
  }

  // ---- The daemon's own classification --------------------------------------------------------

  /** What the daemon scans: the file system, the search paths, the names to ignore, lower-casing. */
  datatype Site = Site(maxDepth: nat, fs: map<string, seq<Entry>>, seeds: seq<string>, ignored: set<string>,
                       lower: char -> char)

  /** A configuration that scans this site, classifying entries, joining paths and telling places apart
      as the daemon does. */
  ghost predicate Scans(cfg: Config, site: Site) {
    && cfg.maxDepth == site.maxDepth && cfg.fs == site.fs && cfg.seeds == site.seeds
    && (forall e :: cfg.kind(e) == StandardKind(site.ignored, site.lower, e))
    && (forall path, name :: cfg.join(path, name) == Paths.Join([path, name]))
    && TellsPlaces(cfg, site.lower)
  }

  /** Two paths count as one exactly when they name one place, letter case aside. */
  ghost predicate TellsPlaces(cfg: Config, lower: char -> char) {
    forall p, q :: Normal(cfg, p) == Normal(cfg, q) <==> PathLaws.SamePath(lower, p, q)
  }

  lemma StandardPlaces(cfg: Config, lower: char -> char)
    requires PathLaws.KeepsMarks(lower)
    requires forall p :: Normal(cfg, p) == Text.Lowered(lower, Paths.Clean(p))
    ensures TellsPlaces(cfg, lower)
  {
    forall p, q ensures Normal(cfg, p) == Normal(cfg, q) <==> PathLaws.SamePath(lower, p, q) {
      PathLaws.SameText(lower, p, q);
    }
  }

  lemma StandardScans(site: Site)
    requires PathLaws.KeepsMarks(site.lower)
    ensures Scans(Standard(site.maxDepth, site.fs, site.seeds, site.ignored, site.lower), site)
  {
    var cfg := Standard(site.maxDepth, site.fs, site.seeds, site.ignored, site.lower);
    StandardPlaces(cfg, site.lower);
  }

  function Entries(site: Site, path: string): seq<Entry> {
    if path in site.fs then site.fs[path] else []
  }

  /** A name that lower-cases, letter by letter, to one of the names to ignore. */
  ghost predicate Ignored(site: Site, name: string) {
    exists w :: w in site.ignored && |w| == |name| && forall i :: 0 <= i < |w| ==> w[i] == site.lower(name[i])
  }

  /** An entry the scan descends into: a real directory, not hidden, with no ignored name. */
  ghost predicate Enterable(site: Site, e: Entry) {
    !e.symlink && e.dir && (e.name == "" || e.name[0] != '.') && !Ignored(site, e.name)
  }

  predicate GitDir(e: Entry) {
    !e.symlink && e.dir && e.name == ".git"
  }

  function ChildJob(parent: Job, e: Entry): Job {
    Job(Paths.Join([parent.path, e.name]), parent.depth + 1)
  }

  /** One directory below another, by an entry the scan may enter. */
  ghost predicate Below(site: Site, parent: Job, job: Job) {
    exists e :: e in Entries(site, parent.path) && Enterable(site, e) && job == ChildJob(parent, e)
  }

  /** A way from a search path down to a directory, told without the model's configuration. */
  ghost predicate Way(site: Site, way: seq<Job>) {
    && |way| > 0 && way[0].depth == 0 && way[0].path in site.seeds
    && forall n :: 0 < n < |way| ==> Below(site, way[n - 1], way[n])
  }

  lemma KindMeans(cfg: Config, site: Site, e: Entry)
    requires Scans(cfg, site)
    ensures KindOf(cfg, e).Descend? <==> Enterable(site, e)
    ensures KindOf(cfg, e).GitDirectory? <==> GitDir(e)
  {
    StandardMeans(site.ignored, site.lower, e);
    IgnoredMeans(site, e.name);
  }

  lemma StandardMeans(ignored: set<string>, lower: char -> char, e: Entry)
    ensures StandardKind(ignored, lower, e).Descend?
            <==> !e.symlink && e.dir && !("." <= e.name) && Text.Lowered(lower, e.name) !in ignored
    ensures StandardKind(ignored, lower, e).GitDirectory? <==> !e.symlink && e.dir && e.name == ".git"
  {
    assert "." <= ".git";
  }

  lemma IgnoredMeans(site: Site, name: string)
    ensures Text.Lowered(site.lower, name) in site.ignored <==> Ignored(site, name)
  {
    var low := Text.Lowered(site.lower, name);
    assert forall w: string :: |w| == |name| && (forall i :: 0 <= i < |w| ==> w[i] == site.lower(name[i])) ==> w == low;
  }

  lemma EntryMeans(cfg: Config, site: Site, parent: Job, i: nat)
    requires Scans(cfg, site)
    requires i < |Entries(site, parent.path)|
    ensures Listing(cfg, parent.path) == Entries(site, parent.path)
    ensures Descends(cfg, parent, i) <==> Enterable(site, Entries(site, parent.path)[i])
    ensures ChildAt(cfg, parent, i) == ChildJob(parent, Entries(site, parent.path)[i])
  {
    KindMeans(cfg, site, Entries(site, parent.path)[i]);
  }

  lemma ListingMeans(cfg: Config, site: Site, path: string)
    requires Scans(cfg, site)
    ensures Listing(cfg, path) == Entries(site, path)
  {
  }

  lemma ChildIsBelow(cfg: Config, site: Site, parent: Job, job: Job)
    requires Scans(cfg, site)
    requires ChildOf(cfg, parent, job)
    ensures Below(site, parent, job)
  {
    var i :| 0 <= i < |Listing(cfg, parent.path)| && Descends(cfg, parent, i) && job == ChildAt(cfg, parent, i);
    ListingMeans(cfg, site, parent.path);
    EntryMeans(cfg, site, parent, i);
    assert Entries(site, parent.path)[i] in Entries(site, parent.path);
  }

  lemma BelowIsChild(cfg: Config, site: Site, parent: Job, job: Job)
    requires Scans(cfg, site)
    requires Below(site, parent, job)
    ensures ChildOf(cfg, parent, job)
  {
    var entries := Entries(site, parent.path);
    var e :| e in entries && Enterable(site, e) && job == ChildJob(parent, e);
    var i :| 0 <= i < |entries| && entries[i] == e;
    EnteredByIndex(cfg, site, parent, i);
  }

  lemma EnteredByIndex(cfg: Config, site: Site, parent: Job, i: nat)
    requires Scans(cfg, site)
    requires i < |Entries(site, parent.path)| && Enterable(site, Entries(site, parent.path)[i])
    ensures ChildOf(cfg, parent, ChildJob(parent, Entries(site, parent.path)[i]))
  {
    EntryMeans(cfg, site, parent, i);
    assert Descends(cfg, parent, i);
  }

  lemma WayIsTrail(cfg: Config, site: Site, way: seq<Job>)
    requires Scans(cfg, site)
    requires Way(site, way)
    ensures Trail(cfg, way)
  {
    forall n | 0 < n < |way| ensures ChildOf(cfg, way[n - 1], way[n]) {
      BelowIsChild(cfg, site, way[n - 1], way[n]);
    }
  }

  lemma TrailIsWay(cfg: Config, site: Site, way: seq<Job>)
    requires Scans(cfg, site)
    requires Trail(cfg, way)
    ensures Way(site, way)
  {
    forall n | 0 < n < |way| ensures Below(site, way[n - 1], way[n]) {
      ChildIsBelow(cfg, site, way[n - 1], way[n]);
    }
  }

  lemma {:induction false} WayDepth(site: Site, way: seq<Job>)
    requires Way(site, way)
    ensures way[|way| - 1].depth == |way| - 1
  {
    if |way| > 1 {
      var front := way[..|way| - 1];
      forall n | 0 < n < |front| ensures Below(site, front[n - 1], front[n]) {
        assert Below(site, way[n - 1], way[n]);
      }
      WayDepth(site, front);
      assert Below(site, way[|way| - 2], way[|way| - 1]);
    }
  }

  ghost predicate Leads(site: Site, job: Job) {
    exists way :: Way(site, way) && way[|way| - 1] == job
  }

  predicate InLimit(site: Site, job: Job) {
    site.maxDepth > 0 ==> job.depth <= site.maxDepth
  }

  /** At every moment of every scan, the way to each directory entered passes no symbolic link, no hidden
      and no ignored directory: only entries that are real directories, below a search path. */
  lemma NoLinkIsFollowed(cfg: Config, site: Site, workers: nat, schedule: seq<Actor>, job: Job)
    requires Scans(cfg, site)
    requires job in Run(cfg, workers, schedule).sh.scanned
    ensures Leads(site, job) && InLimit(site, job)
  {
    ScanContained(cfg, workers, schedule, job);
    var way :| Trail(cfg, way) && way[|way| - 1] == job;
    TrailIsWay(cfg, site, way);
  }

  lemma LeadsIsScanned(cfg: Config, site: Site, workers: nat, schedule: seq<Actor>, job: Job)
    requires Scans(cfg, site)
    requires Finished(cfg, workers, schedule)
    requires Run(cfg, workers, schedule).sh.dropped == {}
    requires Leads(site, job) && InLimit(site, job)
    ensures job in Run(cfg, workers, schedule).sh.scanned
  {
    var way :| Way(site, way) && way[|way| - 1] == job;
    WayIsTrail(cfg, site, way);
    WayDepth(site, way);
    TrailIsScanned(cfg, workers, schedule, way);
  }

  /** The counters of a scan are small enough for nothing to have been dropped. */
  ghost predicate SmallCounts(cfg: Config, workers: nat, schedule: seq<Actor>) {
    var sh := Run(cfg, workers, schedule).sh;
    sh.scannedCount + sh.skippedCount <= 10000
  }

  /** The whole contract of a scan: when it has finished with counters that add up to no more than
      10000, the directories it entered are exactly those to which a way leads within
      the depth limit. */
  lemma {:induction false} ScanIsExact(cfg: Config, site: Site, workers: nat, schedule: seq<Actor>, job: Job)
    requires Scans(cfg, site)
    requires Finished(cfg, workers, schedule) && SmallCounts(cfg, workers, schedule)
    ensures job in Run(cfg, workers, schedule).sh.scanned <==> Leads(site, job) && InLimit(site, job)
  {
    SmallCountsMeanNoDrop(cfg, workers, schedule);
    if job in Run(cfg, workers, schedule).sh.scanned {
      NoLinkIsFollowed(cfg, site, workers, schedule, job);
    }
    if Leads(site, job) && InLimit(site, job) {
      LeadsIsScanned(cfg, site, workers, schedule, job);
    }
  }

  lemma GitIsSeen(cfg: Config, site: Site, path: string, e: Entry)
    requires Scans(cfg, site)
    requires e in Entries(site, path) && GitDir(e)
    ensures HasGit(cfg, path)
  {
    var i :| 0 <= i < |Entries(site, path)| && Entries(site, path)[i] == e;
    ListingMeans(cfg, site, path);
    KindMeans(cfg, site, e);
    assert KindOf(cfg, Listing(cfg, path)[i]).GitDirectory?;
  }

  lemma SeenIsGit(cfg: Config, site: Site, path: string) returns (e: Entry)
    requires Scans(cfg, site)
    requires HasGit(cfg, path)
    ensures e in Entries(site, path) && GitDir(e)
  {
    var i :| 0 <= i < |Listing(cfg, path)| && KindOf(cfg, Listing(cfg, path)[i]).GitDirectory?;
    ListingMeans(cfg, site, path);
    e := Listing(cfg, path)[i];
    KindMeans(cfg, site, e);
  }

  /** And a repository is a scanned directory with a real directory named `.git`. */
  lemma RepositoryMeans(cfg: Config, site: Site, path: string)
    requires Scans(cfg, site)
    ensures HasGit(cfg, path) <==> exists e :: e in Entries(site, path) && GitDir(e)
  {
    if HasGit(cfg, path) {
      var e := SeenIsGit(cfg, site, path);
    }
    if e :| e in Entries(site, path) && GitDir(e) {
      GitIsSeen(cfg, site, path, e);
    }
  }

  // ---- Each repository at its place, once -----------------------------------------------------

  ghost predicate HasGitDir(site: Site, path: string) {
    exists e :: e in Entries(site, path) && GitDir(e)
  }

  lemma {:induction false} HitsOf(cfg: Config, results: seq<string>, i: nat, p: string)
    requires i < |results| && Normal(cfg, results[i]) == p
    ensures Hits(cfg, results, p) >= 1
    ensures forall j :: 0 <= j < i && Normal(cfg, results[j]) == p ==> Hits(cfg, results, p) >= 2
  {
    var front, last := results[..|results| - 1], results[|results| - 1];
    if i < |front| {
      HitsOf(cfg, front, i, p);
    } else {
      forall j | 0 <= j < i && Normal(cfg, results[j]) == p ensures Hits(cfg, results, p) >= 2 {
        HitsOf(cfg, front, j, p);
      }
    }
  }

  ghost predicate DistinctPlaces(site: Site, results: seq<string>) {
    forall i, j :: 0 <= i < j < |results| ==> !PathLaws.SamePath(site.lower, results[i], results[j])
  }

  ghost predicate Listed(site: Site, results: seq<string>, path: string) {
    exists i :: 0 <= i < |results| && PathLaws.SamePath(site.lower, results[i], path)
  }

  ghost predicate Entered(scanned: seq<Job>, path: string) {
    exists job :: job in scanned && job.path == path
  }

  /** What a finished scan reports: never two results for one place, a result for the place of every
      directory entered that holds a real directory `.git`, and the path of such a directory each time.
      Places are told by the components of their paths, letter case aside. */
  lemma {:induction false} OneResultPerPlace(cfg: Config, site: Site, workers: nat, schedule: seq<Actor>)
    requires Scans(cfg, site)
    requires Finished(cfg, workers, schedule)
    ensures var sh := Run(cfg, workers, schedule).sh;
            && DistinctPlaces(site, sh.results)
            && (forall job :: job in sh.scanned && HasGitDir(site, job.path) ==> Listed(site, sh.results, job.path))
            && (forall r :: r in sh.results ==> HasGitDir(site, r) && Entered(sh.scanned, r))
  {
    var sh := Run(cfg, workers, schedule).sh;
    forall i, j | 0 <= i < j < |sh.results| ensures !PathLaws.SamePath(site.lower, sh.results[i], sh.results[j]) {
      RepositoriesOnce(cfg, workers, schedule, Normal(cfg, sh.results[j]));
      HitsOf(cfg, sh.results, j, Normal(cfg, sh.results[j]));
    }
    forall job | job in sh.scanned && HasGitDir(site, job.path) ensures Listed(site, sh.results, job.path) {
      RepositoryMeans(cfg, site, job.path);
      RepositoriesOnce(cfg, workers, schedule, Normal(cfg, job.path));
      HitWitness(cfg, sh.results, Normal(cfg, job.path));
    }
    forall r | r in sh.results ensures HasGitDir(site, r) && Entered(sh.scanned, r) {
      RunInvariant(cfg, workers, schedule);
      assert Reported(cfg, Run(cfg, workers, schedule), r);
      RepositoryMeans(cfg, site, r);
    }
  }

  /** So a scan whose counters are small reports, once, the place of every repository it should find. */
  lemma {:induction false} RepositoryIsFound(cfg: Config, site: Site, workers: nat, schedule: seq<Actor>, job: Job)
    requires Scans(cfg, site)
    requires Finished(cfg, workers, schedule) && SmallCounts(cfg, workers, schedule)
    requires Leads(site, job) && InLimit(site, job) && HasGitDir(site, job.path)
    ensures ListedOnce(site, Run(cfg, workers, schedule).sh.results, job.path)
  {
    ScanIsExact(cfg, site, workers, schedule, job);
    OneResultPerPlace(cfg, site, workers, schedule);
    OnceListed(site, Run(cfg, workers, schedule).sh.results, job.path);
  }

  ghost predicate ListedOnce(site: Site, results: seq<string>, path: string) {
    exists i :: 0 <= i < |results| && PathLaws.SamePath(site.lower, results[i], path)
                && forall j :: 0 <= j < |results| && j != i ==> !PathLaws.SamePath(site.lower, results[j], path)
  }

  lemma OnceListed(site: Site, results: seq<string>, path: string)
    requires DistinctPlaces(site, results) && Listed(site, results, path)
    ensures ListedOnce(site, results, path)
  {
    var i :| 0 <= i < |results| && PathLaws.SamePath(site.lower, results[i], path);
    forall j | 0 <= j < |results| && j != i ensures !PathLaws.SamePath(site.lower, results[j], path) {
      if PathLaws.SamePath(site.lower, results[j], path) {
        SameThird(site, results[i], results[j], path);
      }
    }
  }

  lemma SameThird(site: Site, p: string, q: string, path: string)
    requires PathLaws.SamePath(site.lower, p, path) && PathLaws.SamePath(site.lower, q, path)
    ensures PathLaws.SamePath(site.lower, p, q) && PathLaws.SamePath(site.lower, q, p)
  {
  }

  /** The directory an entry leads to has the components of its parent and then the name of the entry. */
  lemma ChildComponents(parent: Job, e: Entry)
    requires '/' !in e.name && e.name != "" && e.name[0] != '.'
    ensures var child := ChildJob(parent, e);
            && Paths.Components(child.path) == Paths.Components(parent.path) + [e.name]
            && Paths.Rooted(child.path) == Paths.Rooted(parent.path)
            && Paths.Clean(child.path) == child.path
            && child.depth == parent.depth + 1
  {
    var parts := [parent.path, e.name];
    assert parts[1..] == [e.name] && parts[1..][1..] == [];
    if parent.path == "" {
      assert Paths.NonEmpty([e.name]) == [e.name];
      PathLaws.FirstComponent(e.name);
      PathLaws.FirstComponent("");
      Paths.ComponentsOfClean(e.name);
      assert e.name[0] in e.name;
    } else {
      assert Paths.NonEmpty([e.name]) == [e.name];
      assert Paths.NonEmpty(parts) == [parent.path] + [e.name];
      var path := parent.path + "/" + e.name;
      assert Text.Join(parts, '/') == path;
      PathLaws.NextComponent(parent.path, e.name);
      Paths.ComponentsOfClean(path);
    }
  }

  // ---- What the counters count -----------------------------------------------------------------

  /** The entries that are real directories other than `.git`, by their positions. */
  function SubDirectories(entries: seq<Entry>, from: nat): set<nat> {
    set i: nat | from <= i < |entries| && !entries[i].symlink && entries[i].dir && entries[i].name != ".git"
  }

  function AllSubDirectories(site: Site, jobs: seq<Job>): nat {
    if jobs == [] then 0
    else AllSubDirectories(site, jobs[..|jobs| - 1]) + |SubDirectories(Entries(site, jobs[|jobs| - 1].path), 0)|
  }

  lemma {:induction false} ChildrenAreSubDirectories(cfg: Config, site: Site, path: string, from: nat)
    requires Scans(cfg, site)
    ensures ChildDirectories(cfg, path, from) == |SubDirectories(Entries(site, path), from)|
    decreases |Listing(cfg, path)| - from
  {
    var entries := Entries(site, path);
    ListingMeans(cfg, site, path);
    if from >= |entries| {
      assert SubDirectories(entries, from) == {};
    } else {
      ChildrenAreSubDirectories(cfg, site, path, from + 1);
      var rest := SubDirectories(entries, from + 1);
      ChildMeans(cfg, site, entries[from]);
      assert SubDirectories(entries, from) == if IsChildDirectory(cfg, entries[from]) then {from} + rest else rest;
    }
  }

  lemma ChildMeans(cfg: Config, site: Site, e: Entry)
    requires Scans(cfg, site)
    ensures IsChildDirectory(cfg, e) <==> !e.symlink && e.dir && e.name != ".git"
  {
    assert cfg.kind(e) == StandardKind(site.ignored, site.lower, e);
  }

  lemma {:induction false} AllChildrenAreSubDirectories(cfg: Config, site: Site, jobs: seq<Job>)
    requires Scans(cfg, site)
    ensures AllChildDirectories(cfg, jobs) == AllSubDirectories(site, jobs)
  {
    if jobs != [] {
      AllChildrenAreSubDirectories(cfg, site, jobs[..|jobs| - 1]);
      ChildrenAreSubDirectories(cfg, site, jobs[|jobs| - 1].path, 0);
    }
  }

  /** The counters a finished scan returns: the directories entered, and the search paths and real
      subdirectories (`.git` aside) of everything entered that were not. */
  lemma {:induction false} CountersMean(cfg: Config, site: Site, workers: nat, schedule: seq<Actor>)
    requires Scans(cfg, site)
    requires Finished(cfg, workers, schedule)
    ensures var sh := Run(cfg, workers, schedule).sh;
            && sh.scannedCount == |sh.scanned|
            && sh.skippedCount == |site.seeds| + AllSubDirectories(site, sh.scanned) - |sh.scanned|
  {
    CountersConserved(cfg, workers, schedule);
    AllChildrenAreSubDirectories(cfg, site, Run(cfg, workers, schedule).sh.scanned);
  }
}
