/** What a completed package phase costs on disk, against what the preflight asked for. */
module MirrorDisk {
  import opened Base
  import opened Segments
  import opened MirrorPaths
  import opened MirrorPlan
  import opened MirrorRun
  import opened MirrorSafety

  /** Bytes held by all files of the channel. */
  ghost function Total(m: Files): nat {
    if m == map[] then 0 else
      var k :| k in m;
      |m[k]| + Total(m - {k})
  }

  function Size(m: Files, p: Path): nat {
    if p in m then |m[p]| else 0
  }

  lemma {:induction false} TotalRemove(m: Files, p: Path)
    requires p in m
    ensures Total(m) == |m[p]| + Total(m - {p})
    decreases |m|
  {
    var k :| k in m && Total(m) == |m[k]| + Total(m - {k});
    if k != p {
      TotalRemove(m - {k}, p);
      TotalRemove(m - {p}, k);
      assert m - {k} - {p} == m - {p} - {k};
    }
  }

  /** `g` with one path put back to what it is in `f`. */
  function Restore(g: Files, f: Files, p: Path): Files {
    if p in f then g[p := f[p]] else g - {p}
  }

  lemma TotalRestore(g: Files, f: Files, p: Path)
    ensures Total(Restore(g, f, p)) == Total(g) - Size(g, p) + Size(f, p)
  {
    var r := Restore(g, f, p);
    assert r - {p} == g - {p};
    if p in g { TotalRemove(g, p); } else { assert g - {p} == g; }
    if p in r { TotalRemove(r, p); } else { assert r - {p} == r; }
  }

  /** What one finished package may have done: nothing, or placed a file no larger
      than declared and cleared its staging file. */
  ghost predicate GrowthOk(f: Files, g: Files, p: Package)
    requires p.dest != []
  {
    || (Same(f, g, p.dest) && Same(f, g, Staging(p.dest)))
    || (Staging(p.dest) !in g && p.dest in g && |g[p.dest]| <= p.size)
  }

  ghost predicate PackageNames(ps: seq<Package>) {
    forall p | p in ps :: PackageName(p.dest)
  }

  ghost predicate Elsewhere(ps: seq<Package>, q: Path)
    requires PackageNames(ps)
  {
    forall p | p in ps :: q != p.dest && q != Staging(p.dest)
  }

  /** `g` with both files of a package put back to what they are in `f`. */
  function Undone(g: Files, f: Files, p: Package): Files
    requires p.dest != []
  {
    Restore(Restore(g, f, p.dest), f, Staging(p.dest))
  }

  lemma UndoneExact(g: Files, f: Files, p: Package)
    requires PackageName(p.dest)
    ensures var h := Undone(g, f, p);
            && Same(f, h, p.dest) && Same(f, h, Staging(p.dest))
            && forall q | q != p.dest && q != Staging(p.dest) :: Same(g, h, q)
  {
    PackagesApart(p.dest, p.dest);
  }

  lemma UndoneTotal(f: Files, g: Files, p: Package)
    requires PackageName(p.dest) && GrowthOk(f, g, p)
    ensures Total(g) <= Total(Undone(g, f, p)) + if p.dest in f && |f[p.dest]| == p.size then 0 else p.size
  {
    var half := Restore(g, f, p.dest);
    PackagesApart(p.dest, p.dest);
    TotalRestore(g, f, p.dest);
    TotalRestore(half, f, Staging(p.dest));
  }

  lemma UndoneOthers(f: Files, g: Files, ps: seq<Package>)
    requires ps != [] && DistinctDests(ps) && PackageNames(ps)
    requires forall q | Elsewhere(ps, q) :: Same(f, g, q)
    requires forall p | p in ps :: GrowthOk(f, g, p)
    ensures var front, h := ps[..|ps| - 1], Undone(g, f, ps[|ps| - 1]);
            && (forall q | Elsewhere(front, q) :: Same(f, h, q))
            && (forall e | e in front :: GrowthOk(f, h, e))
  {
    var front, p := ps[..|ps| - 1], ps[|ps| - 1];
    var h := Undone(g, f, p);
    UndoneExact(g, f, p);
    forall q | Elsewhere(front, q) ensures Same(f, h, q) {
      if q != p.dest && q != Staging(p.dest) {
        assert Elsewhere(ps, q);
      }
    }
    forall e | e in front ensures GrowthOk(f, h, e) {
      var i :| 0 <= i < |front| && front[i] == e;
      assert ps[i].dest != ps[|front|].dest;
      PackagesApart(p.dest, e.dest);
      PackagesApart(e.dest, p.dest);
      assert Same(g, h, e.dest) && Same(g, h, Staging(e.dest));
      assert GrowthOk(f, g, e);
    }
  }

  lemma SameEverywhere(f: Files, g: Files)
    requires forall q :: Same(f, g, q)
    ensures f == g
  {
    forall q ensures q in f <==> q in g {
      assert Same(f, g, q);
    }
    forall q | q in f ensures f[q] == g[q] {
      assert Same(f, g, q);
    }
  }

  /** Summing the packages one at a time: what changed is covered by what was required. */
  lemma {:induction false} GrowthIsCovered(f: Files, g: Files, ps: seq<Package>)
    requires DistinctDests(ps) && PackageNames(ps)
    requires forall q | Elsewhere(ps, q) :: Same(f, g, q)
    requires forall p | p in ps :: GrowthOk(f, g, p)
    ensures Total(g) <= Total(f) + Required(f, ps)
    decreases |ps|
  {
    if ps == [] {
      forall q ensures Same(f, g, q) {
        assert Elsewhere(ps, q);
      }
      SameEverywhere(f, g);
    } else {
      UndoneOthers(f, g, ps);
      UndoneTotal(f, g, ps[|ps| - 1]);
      GrowthIsCovered(f, Undone(g, f, ps[|ps| - 1]), ps[..|ps| - 1]);
    }
  }

  // ----------------------------------------------------- what the workers have changed

  ghost predicate JobDisk(before: Files, files: Files, p: Package, worker: Worker)
    requires p.dest != []
  {
    match worker
    case Queued => Same(before, files, p.dest) && Same(before, files, Staging(p.dest))
    case Hashing => Same(before, files, p.dest) && Same(before, files, Staging(p.dest))
    case Finished(result) =>
      if result.downloaded then Staging(p.dest) !in files
      else Same(before, files, p.dest) && Same(before, files, Staging(p.dest))
    case _ => true
  }

  ghost predicate JobsPlain(run: Run) {
    forall d | d in run.jobs :: PackageName(d) && run.jobs[d].package.dest == d
  }

  ghost predicate NoJobAt(run: Run, q: Path)
    requires JobsPlain(run)
  {
    forall d | d in run.jobs :: q != d && q != Staging(d)
  }

  ghost predicate DiskInv(w: World) {
    w.run.phase.Downloading? ==>
      && JobsPlain(w.run)
      && (forall q | NoJobAt(w.run, q) :: Same(w.run.before, w.files, q))
      && (forall d | d in w.run.jobs :: JobDisk(w.run.before, w.files, w.run.jobs[d].package, w.run.jobs[d].worker))
      && (forall p :: p in Unique(AllPackages(w.run.plans)) <==>
            p.dest in w.run.jobs && w.run.jobs[p.dest].package == p)
  }

  lemma WorkerDisk(env: Env, before: Files, files: Files, p: Package, worker: Worker, event: WorkEvent)
    requires PackageName(p.dest) && JobDisk(before, files, p, worker)
    ensures var (files', worker') := WorkerStep(env, files, p, worker, event);
            JobDisk(before, files', p, worker')
  {
    PackagesApart(p.dest, p.dest);
  }

  lemma DiskInvStarts(w: World, free: nat)
    requires PlansOk(w.run) && w.run.phase.Planning?
    ensures var jobs := Jobs(Unique(AllPackages(w.run.plans)));
            DiskInv(Enter(w.(run := w.run.(jobs := jobs, before := w.files)), Downloading))
  {
    var all := AllPackages(w.run.plans);
    var jobs := Jobs(Unique(all));
    UniqueExact(all);
    forall d | d in jobs ensures PackageName(d) && jobs[d].package.dest == d {
      StartedJob(w.run, d);
    }
    QueuedJobs(w.run.(jobs := jobs, before := w.files, phase := Downloading), Unique(all));
  }

  /** Every job is queued at the start, and is that of one package. */
  lemma QueuedJobs(run: Run, packages: seq<Package>)
    requires DistinctDests(packages) && run.jobs == Jobs(packages) && JobsPlain(run)
    ensures forall d | d in run.jobs :: JobDisk(run.before, run.before, run.jobs[d].package, run.jobs[d].worker)
    ensures forall p :: p in packages <==> p.dest in run.jobs && run.jobs[p.dest].package == p
  {
    JobsOfPackages(packages);
  }

  lemma StartedJob(run: Run, d: Path)
    requires PlansOk(run) && d in Jobs(Unique(AllPackages(run.plans)))
    ensures PackageName(d) && Jobs(Unique(AllPackages(run.plans)))[d].package.dest == d
  {
    var all := AllPackages(run.plans);
    UniqueExact(all);
    JobsOfPackages(Unique(all));
    var p := Jobs(Unique(all))[d].package;
    assert FirstWithDest(all, p);
    PackagesConfined(run.plans, p);
  }

  lemma DiskInvWork(w: World, d: Path, worker: Worker, w': World)
    requires DiskInv(w) && w.run.phase.Downloading? && d in w.run.jobs
    requires w'.run == w.run.(jobs := w.run.jobs[d := Job(w.run.jobs[d].package, worker)])
    requires forall q | q != d && q != Staging(d) :: Same(w.files, w'.files, q)
    requires w.run.jobs[d].package.dest != [] && JobDisk(w.run.before, w'.files, w.run.jobs[d].package, worker)
    ensures DiskInv(w')
  {
    forall e | e in w'.run.jobs ensures JobDisk(w.run.before, w'.files, w'.run.jobs[e].package, w'.run.jobs[e].worker) {
      if e != d {
        PackagesApart(d, e);
        PackagesApart(e, d);
        assert Same(w.files, w'.files, e) && Same(w.files, w'.files, Staging(e));
        assert JobDisk(w.run.before, w.files, w.run.jobs[e].package, w.run.jobs[e].worker);
      }
    }
    forall q | NoJobAt(w'.run, q) ensures Same(w.run.before, w'.files, q) {
      forall e | e in w.run.jobs ensures q != e && q != Staging(e) {
        assert e in w'.run.jobs;
      }
      assert NoJobAt(w.run, q) && Same(w.files, w'.files, q);
    }
  }

  lemma DiskInvDownload(env: Env, w: World, a: Action, w': World)
    requires Inv(env, w) && DiskInv(w) && w.run.phase.Downloading? && w' == Download(env, w, a)
    ensures DiskInv(w')
  {
    if a.Work? && a.dest in w.run.jobs {
      var job := w.run.jobs[a.dest];
      WorkerStepOk(env, w.files, job.package, job.worker, a.event);
      WorkerDisk(env, w.run.before, w.files, job.package, job.worker, a.event);
      DiskInvWork(w, a.dest, WorkerStep(env, w.files, job.package, job.worker, a.event).1, w');
    }
  }

  /** Only a passed check starts the download phase. */
  lemma DownloadingBegins(env: Env, w: World, a: Action, w': World)
    requires Inv(env, w) && !w.run.phase.Downloading? && w' == Apply(env, w, a) && w'.run.phase.Downloading?
    ensures w.run.phase.Planning? && a.Check?
    ensures var jobs := Jobs(Unique(AllPackages(w.run.plans)));
            w' == Enter(w.(run := w.run.(jobs := jobs, before := w.files)), Downloading)
  {
    match w.run.phase
    case Planning(next) => if next < |w.run.selected| { PlanningRun(env, w, next, a); }
    case Publishing(i, step) => PublishRun(env, w, i, step, a);
    case _ =>
  }

  lemma DiskInvStep(env: Env, w: World, a: Action, w': World)
    requires Inv(env, w) && DiskInv(w) && w' == Apply(env, w, a)
    ensures DiskInv(w')
  {
    if w'.run.phase.Downloading? {
      if w.run.phase.Downloading? {
        DiskInvDownload(env, w, a, w');
      } else {
        DownloadingBegins(env, w, a, w');
        DiskInvStarts(w, a.free);
      }
    }
  }

  lemma {:induction false} DiskInvAlways(env: Env, w: World, actions: seq<Action>)
    requires Inv(env, w) && DiskInv(w)
    ensures DiskInv(Exec(env, w, actions))
    decreases |actions|
  {
    if actions != [] {
      DiskInvStep(env, w, actions[0], Apply(env, w, actions[0]));
      ApplyKeeps(env, w, actions[0]);
      DiskInvAlways(env, Apply(env, w, actions[0]), actions[1..]);
    }
  }

  /** When every worker has finished, the channel has grown by at most what the disk
      preflight required, counted from the moment the checks passed. */
  lemma PackagePhaseGrowth(env: Env, files: Files, history: seq<Action>)
    requires var w := Exec(env, Fresh(files), history); w.run.phase.Downloading? && AllFinished(w.run.jobs)
    ensures var w := Exec(env, Fresh(files), history);
            Total(w.files) <= Total(w.run.before) + Required(w.run.before, Unique(AllPackages(w.run.plans)))
  {
    var w := Exec(env, Fresh(files), history);
    InvFromFresh(env, files, history);
    DiskInvAlways(env, Fresh(files), history);
    var us := Unique(AllPackages(w.run.plans));
    UniqueExact(AllPackages(w.run.plans));
    forall p | p in us ensures PackageName(p.dest) && GrowthOk(w.run.before, w.files, p) {
      var job := w.run.jobs[p.dest];
      assert JobDisk(w.run.before, w.files, job.package, job.worker);
      assert JobOk(env, w.files, job.package, job.worker);
    }
    forall q | Elsewhere(us, q) ensures Same(w.run.before, w.files, q) {
      forall d | d in w.run.jobs ensures q != d && q != Staging(d) {
        assert w.run.jobs[d].package in us;
      }
      assert NoJobAt(w.run, q);
    }
    GrowthIsCovered(w.run.before, w.files, us);
  }

  function Results(jobs: map<Path, Job>): map<Path, PackageResult> {
    map d | d in jobs && jobs[d].worker.Finished? :: jobs[d].worker.result
  }

  /** The results of a completed phase are exactly one per destination, which is what
      the run's tally starts from; each is the size of the file now on disk. */
  lemma ResultsAreComplete(env: Env, files: Files, history: seq<Action>)
    requires var w := Exec(env, Fresh(files), history); w.run.phase.Downloading? && AllFinished(w.run.jobs)
    ensures var w := Exec(env, Fresh(files), history);
            && (forall d :: d in Results(w.run.jobs) <==> HasDest(AllPackages(w.run.plans), d))
            && (forall d | d in Results(w.run.jobs) :: d in w.files && Results(w.run.jobs)[d].size == |w.files[d]|)
  {
    var w := Exec(env, Fresh(files), history);
    InvFromFresh(env, files, history);
    forall d | d in w.run.jobs ensures d in w.files && w.run.jobs[d].worker.result.size == |w.files[d]| {
      assert JobOk(env, w.files, w.run.jobs[d].package, w.run.jobs[d].worker);
    }
  }
}
