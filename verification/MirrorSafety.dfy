/** What every mirror run keeps: an index is only ever published over a complete,
    verified set of packages, and those packages stay put until the run ends. */
module MirrorSafety {
  import opened Base
  import opened Segments
  import opened MirrorPaths
  import opened MirrorPlan
  import opened MirrorRun

  /** Two states of the files agree about one path. */
  ghost predicate Same(f: Files, g: Files, p: Path) {
    (p in f <==> p in g) && (p in f ==> f[p] == g[p])
  }

  ghost predicate OnDisk(env: Env, files: Files, p: Package) {
    p.dest in files && env.digest(p.ctype, files[p.dest]) == p.checksum
  }

  ghost predicate StagedWithin(files: Files, p: Package) {
    p.dest != [] && Staging(p.dest) in files && |files[Staging(p.dest)]| <= p.size
  }

  /** What each worker state promises about its own destination and staging file. */
  ghost predicate JobOk(env: Env, files: Files, p: Package, worker: Worker) {
    p.dest != [] &&
    match worker
    case Queued => true
    case Hashing => p.dest in files && |files[p.dest]| == p.size
    case Fetching(k) => k < ATTEMPTS
    case Fetched(k) => k < ATTEMPTS && StagedWithin(files, p)
    case Verified(k, size) =>
      && k < ATTEMPTS && StagedWithin(files, p) && |files[Staging(p.dest)]| == size
      && env.digest(p.ctype, files[Staging(p.dest)]) == p.checksum
    case Finished(result) =>
      && OnDisk(env, files, p) && |files[p.dest]| == result.size <= p.size
      && (!result.downloaded ==> result.size == p.size)
    case Aborted => true
  }

  lemma WorkerStepOk(env: Env, files: Files, p: Package, worker: Worker, event: WorkEvent)
    requires PackageName(p.dest) && JobOk(env, files, p, worker)
    ensures var (files', worker') := WorkerStep(env, files, p, worker, event);
            JobOk(env, files', p, worker')
    ensures var (files', worker') := WorkerStep(env, files, p, worker, event);
            forall q | q != p.dest && q != Staging(p.dest) :: Same(files, files', q)
    ensures worker.Finished? ==> WorkerStep(env, files, p, worker, event) == (files, worker)
  {
    PackagesApart(p.dest, p.dest);
  }

  lemma JobFrame(env: Env, f: Files, g: Files, p: Package, worker: Worker)
    requires p.dest != [] && Same(f, g, p.dest) && Same(f, g, Staging(p.dest)) && JobOk(env, f, p, worker)
    ensures JobOk(env, g, p, worker)
  {
  }

  // -------------------------------------------------------------------- the invariant

  ghost predicate PlansOk(run: Run) {
    && (forall r | r in run.selected :: RepoOk(r))
    && (forall plan | plan in run.plans :: plan.repo in run.selected && PlanConfined(plan))
    && (run.phase.Planning? ==> run.phase.next <= |run.selected|)
    && (run.phase.Publishing? ==> run.phase.plan < |run.plans|)
  }

  ghost predicate JobsMatch(run: Run) {
    && NoConflicts(AllPackages(run.plans))
    && (forall d | d in run.jobs ::
          PackageName(d) && run.jobs[d].package.dest == d && run.jobs[d].package in AllPackages(run.plans))
    && (forall p | p in AllPackages(run.plans) :: p.dest in run.jobs)
  }

  ghost predicate JobsOk(env: Env, files: Files, jobs: map<Path, Job>) {
    forall d | d in jobs :: JobOk(env, files, jobs[d].package, jobs[d].worker)
  }

  ghost predicate Inv(env: Env, w: World) {
    && PlansOk(w.run)
    && (w.run.phase.Downloading? || w.run.phase.Publishing? ==> JobsMatch(w.run) && JobsOk(env, w.files, w.run.jobs))
    && (w.run.phase.Publishing? ==> AllFinished(w.run.jobs))
  }

  lemma {:induction false} JobsOfPackages(ps: seq<Package>)
    requires DistinctDests(ps)
    ensures forall d | d in Jobs(ps) :: Jobs(ps)[d].worker == Queued && Jobs(ps)[d].package in ps
              && Jobs(ps)[d].package.dest == d
    ensures forall p | p in ps :: p.dest in Jobs(ps) && Jobs(ps)[p.dest].package == p
  {
    if ps != [] {
      var front := ps[..|ps| - 1];
      JobsOfPackages(front);
      forall p | p in ps ensures p.dest in Jobs(ps) && Jobs(ps)[p.dest].package == p {
        var i :| 0 <= i < |ps| && ps[i] == p;
        if i < |front| {
          assert front[i] == p && ps[i].dest != ps[|front|].dest;
        }
      }
    }
  }

  lemma PackagesConfined(plans: seq<Plan>, p: Package)
    requires p in AllPackages(plans) && forall plan | plan in plans :: PlanConfined(plan)
    ensures PackageName(p.dest)
  {
    AllPackagesMembers(plans, p);
    var plan :| plan in plans && p in plan.packages;
    assert Confined(plan.repo, p);
  }

  lemma DownloadingStarts(env: Env, w: World, free: nat)
    requires Inv(env, w) && w.run.phase.Planning? && ChecksPass(w, free)
    ensures var jobs := Jobs(Unique(AllPackages(w.run.plans)));
            JobsMatch(w.run.(jobs := jobs)) && JobsOk(env, w.files, jobs)
  {
    var all := AllPackages(w.run.plans);
    UniqueExact(all);
    JobsOfPackages(Unique(all));
    var jobs := Jobs(Unique(all));
    forall d | d in jobs ensures PackageName(d) && jobs[d].package in all {
      assert FirstWithDest(all, jobs[d].package);
      PackagesConfined(w.run.plans, jobs[d].package);
    }
    forall p | p in all ensures p.dest in jobs {
      assert HasDest(all, p.dest);
      var u :| u in Unique(all) && u.dest == p.dest;
    }
  }

  lemma DownloadKeeps(env: Env, w: World, d: Path, event: WorkEvent)
    requires Inv(env, w) && w.run.phase.Downloading? && d in w.run.jobs
    ensures Inv(env, Download(env, w, Work(d, event)))
  {
    var job := w.run.jobs[d];
    var w' := Download(env, w, Work(d, event));
    WorkerStepOk(env, w.files, job.package, job.worker, event);
    forall e | e in w'.run.jobs ensures JobOk(env, w'.files, w'.run.jobs[e].package, w'.run.jobs[e].worker) {
      if e != d {
        PackagesApart(d, e);
        PackagesApart(e, d);
        JobFrame(env, w.files, w'.files, w.run.jobs[e].package, w.run.jobs[e].worker);
      }
    }
  }

  /** Publishing touches only the control file it is at and that file's staging. */
  lemma PublishFrame(env: Env, w: World, i: nat, step: PublishStep, a: Action, q: Path)
    requires i < |w.run.plans|
    requires q != Target(w.run.plans[i].repo, step) && q != Staging(Target(w.run.plans[i].repo, step))
    ensures Same(w.files, PublishStepOf(env, w, i, step, a).files, q)
  {
  }

  lemma PackageNotPublished(repo: string, step: PublishStep, d: Path)
    requires PackageName(d)
    ensures d != Target(repo, step) && d != Staging(Target(repo, step))
    ensures Staging(d) != Target(repo, step) && Staging(d) != Staging(Target(repo, step))
  {
    var t := Target(repo, step);
    ControlIsNotPackage(repo, t, d);
    StagingEnds(t);
    SuffixesApart(Last(d));
    if Staging(d) == Staging(t) {
      StagingInjective(d, t);
    }
  }

  /** A publish step moves between publish states or ends the run; it revises no plan. */
  lemma PublishRun(env: Env, w: World, i: nat, step: PublishStep, a: Action)
    requires i < |w.run.plans| && w.run.phase == Publishing(i, step)
    ensures var w' := PublishStepOf(env, w, i, step, a);
            && w'.run == w.run.(phase := w'.run.phase)
            && (w'.run.phase.Done? || w'.run.phase.Failed? || w'.run.phase.Publishing?)
            && (w'.run.phase.Publishing? ==> w'.run.phase.plan < |w.run.plans|)
  {
  }

  lemma PackagesFrame(env: Env, w: World, w': World, i: nat, step: PublishStep, d: Path)
    requires i < |w.run.plans| && PackageName(d)
    requires forall q | q != Target(w.run.plans[i].repo, step) && q != Staging(Target(w.run.plans[i].repo, step)) ::
              Same(w.files, w'.files, q)
    ensures Same(w.files, w'.files, d) && Same(w.files, w'.files, Staging(d))
  {
    PackageNotPublished(w.run.plans[i].repo, step, d);
  }

  lemma JobsKept(env: Env, w: World, w': World, i: nat, step: PublishStep)
    requires i < |w.run.plans| && JobsMatch(w.run) && JobsOk(env, w.files, w.run.jobs)
    requires forall q | q != Target(w.run.plans[i].repo, step) && q != Staging(Target(w.run.plans[i].repo, step)) ::
              Same(w.files, w'.files, q)
    ensures JobsOk(env, w'.files, w.run.jobs)
  {
    forall d | d in w.run.jobs ensures JobOk(env, w'.files, w.run.jobs[d].package, w.run.jobs[d].worker) {
      PackagesFrame(env, w, w', i, step, d);
      JobFrame(env, w.files, w'.files, w.run.jobs[d].package, w.run.jobs[d].worker);
    }
  }

  lemma PublishKeeps(env: Env, w: World, i: nat, step: PublishStep, a: Action, w': World)
    requires Inv(env, w) && w.run.phase == Publishing(i, step) && w' == PublishStepOf(env, w, i, step, a)
    ensures Inv(env, w') && JobsMatch(w'.run) && JobsOk(env, w'.files, w'.run.jobs) && AllFinished(w'.run.jobs)
    ensures w'.run.plans == w.run.plans && (w'.run.phase.Publishing? || w'.run.phase.Done? || w'.run.phase.Failed?)
    ensures forall d | PackageName(d) :: Same(w.files, w'.files, d)
  {
    PublishRun(env, w, i, step, a);
    PublishFrameAll(env, w, i, step, a);
    JobsKept(env, w, w', i, step);
    forall d | PackageName(d) ensures Same(w.files, w'.files, d) {
      PackagesFrame(env, w, w', i, step, d);
    }
  }

  lemma PublishFrameAll(env: Env, w: World, i: nat, step: PublishStep, a: Action)
    requires i < |w.run.plans|
    ensures var t := Target(w.run.plans[i].repo, step);
            forall q | q != t && q != Staging(t) :: Same(w.files, PublishStepOf(env, w, i, step, a).files, q)
  {
    var t := Target(w.run.plans[i].repo, step);
    forall q | q != t && q != Staging(t) ensures Same(w.files, PublishStepOf(env, w, i, step, a).files, q) {
      PublishFrame(env, w, i, step, a, q);
    }
  }

  lemma PlanningKeeps(env: Env, w: World, next: nat, a: Action)
    requires Inv(env, w) && w.run.phase == Planning(next) && next < |w.run.selected|
    ensures Inv(env, PlanningStep(env, w, next, w.run.selected[next], a))
  {
    if w.run.fetching.Some? && w.run.Awaited().None? {
      ListingKeeps(env, w, next, a);
    }
  }

  lemma ListingKeeps(env: Env, w: World, next: nat, a: Action)
    requires Inv(env, w) && w.run.phase == Planning(next) && next < |w.run.selected| && w.run.fetching.Some?
    ensures Inv(env, ListStep(w, next, w.run.selected[next], a))
  {
    if a.PlanRepo? && PlanPackages(w.run.selected[next], a.listing).Ok? {
      PlannedPackagesAreConfined(w.run.selected[next], a.listing);
    }
  }

  /** A planning step may add one plan, for the repository it is at, and then moves on. */
  ghost predicate Planned(run: Run, next: nat, repo: string, run': Run) {
    && run' == run.(phase := run'.phase, plans := run'.plans, fetching := run'.fetching)
    && (run'.phase.Failed? || run'.phase == Planning(next) || run'.phase == Planning(next + 1))
    && (run'.plans == run.plans ||
        (run'.phase == Planning(next + 1) && |run'.plans| == |run.plans| + 1
         && run'.plans[..|run.plans|] == run.plans && run'.plans[|run.plans|].repo == repo))
  }

  lemma PlanningRun(env: Env, w: World, next: nat, a: Action)
    requires next < |w.run.selected| && w.run.phase == Planning(next)
    ensures var w' := PlanningStep(env, w, next, w.run.selected[next], a);
            w'.authors == w.authors && Planned(w.run, next, w.run.selected[next], w'.run)
  {
    if w.run.fetching.None? {
      IndexRun(env, w, next, w.run.selected[next], a);
    } else if w.run.Awaited().None? {
      ListingRun(w, next, w.run.selected[next], a);
    } else if ConfineMetadata(w.run.Awaited().value.href).Ok? {
      var dest := MetaPath(w.run.selected[next], ConfineMetadata(w.run.Awaited().value.href).value);
      MetaRun(env, w, next, w.run.selected[next], w.run.Awaited().value, dest, a);
    }
  }

  lemma IndexRun(env: Env, w: World, next: nat, repo: string, a: Action)
    requires w.run.phase == Planning(next)
    ensures var w' := IndexStep(env, w, next, repo, a); w'.authors == w.authors && Planned(w.run, next, repo, w'.run)
  {
  }

  lemma MetaRun(env: Env, w: World, next: nat, repo: string, e: MetaEntry, dest: Path, a: Action)
    requires w.run.phase == Planning(next) && dest != [] && w.run.fetching.Some?
    ensures var w' := MetaStep(env, w, e, dest, a); w'.authors == w.authors && Planned(w.run, next, repo, w'.run)
  {
  }

  lemma ListingRun(w: World, next: nat, repo: string, a: Action)
    requires w.run.phase == Planning(next) && w.run.fetching.Some?
    ensures var w' := ListStep(w, next, repo, a);
            w'.authors == w.authors && w'.files == w.files && Planned(w.run, next, repo, w'.run)
  {
  }

  lemma ApplyKeeps(env: Env, w: World, a: Action)
    requires Inv(env, w)
    ensures Inv(env, Apply(env, w, a))
  {
    if !a.Start? {
      match w.run.phase
      case Planning(next) =>
        if next < |w.run.selected| {
          PlanningKeeps(env, w, next, a);
        } else if a.Check? && ChecksPass(w, a.free) {
          DownloadingStarts(env, w, a.free);
        }
      case Downloading =>
        if a.Work? && a.dest in w.run.jobs {
          DownloadKeeps(env, w, a.dest, a.event);
        }
      case Publishing(i, step) => PublishKeeps(env, w, i, step, a, PublishStepOf(env, w, i, step, a));
      case _ =>
    }
  }

  /** The invariant holds in every state of every history of runs. */
  lemma {:induction false} InvAlways(env: Env, w: World, actions: seq<Action>)
    requires Inv(env, w)
    ensures Inv(env, Exec(env, w, actions))
    decreases |actions|
  {
    if actions != [] {
      ApplyKeeps(env, w, actions[0]);
      InvAlways(env, Apply(env, w, actions[0]), actions[1..]);
    }
  }

  lemma InvFromFresh(env: Env, files: Files, history: seq<Action>)
    ensures Inv(env, Exec(env, Fresh(files), history))
  {
    InvAlways(env, Fresh(files), history);
  }

  // ------------------------------------------------------------------ publish safety

  ghost predicate EverythingOnDisk(env: Env, w: World) {
    forall plan, p | plan in w.run.plans && p in plan.packages :: OnDisk(env, w.files, p)
  }

  lemma FinishedMeansOnDisk(env: Env, w: World)
    requires PlansOk(w.run) && JobsMatch(w.run) && JobsOk(env, w.files, w.run.jobs) && AllFinished(w.run.jobs)
    ensures EverythingOnDisk(env, w)
  {
    forall plan, p | plan in w.run.plans && p in plan.packages ensures OnDisk(env, w.files, p) {
      AllPackagesMembers(w.run.plans, p);
      var job := w.run.jobs[p.dest];
      assert Agree(job.package, p);
      assert JobOk(env, w.files, job.package, job.worker);
    }
  }

  /** Whatever happened before, in this run or an earlier one, a step that changes any
      repository's index (or signature) is a publish step, and every package of every
      planned repository is on disk with its declared digest before and after it. */
  lemma IndexWrittenOnlyWhenComplete(env: Env, files: Files, history: seq<Action>, a: Action, r: string, p: Path)
    requires RepoOk(r) && p in {IndexPath(r), SignaturePath(r)}
    requires !Same(Exec(env, Fresh(files), history).files, Apply(env, Exec(env, Fresh(files), history), a).files, p)
    ensures var w := Exec(env, Fresh(files), history);
            w.run.phase.Publishing? && EverythingOnDisk(env, w) && EverythingOnDisk(env, Apply(env, w, a))
  {
    var w := Exec(env, Fresh(files), history);
    InvFromFresh(env, files, history);
    assert p in Control(r);
    match w.run.phase
    case Planning(next) =>
      if next < |w.run.selected| {
        PlanningMissesIndex(env, w, next, a, r, p);
      }
    case Downloading =>
      if a.Work? && a.dest in w.run.jobs {
        ControlIsNotPackage(r, p, a.dest);
        WorkerStepOk(env, w.files, w.run.jobs[a.dest].package, w.run.jobs[a.dest].worker, a.event);
      }
    case Publishing(i, step) =>
      FinishedMeansOnDisk(env, w);
      var w' := PublishStepOf(env, w, i, step, a);
      PublishKeeps(env, w, i, step, a, w');
      FinishedMeansOnDisk(env, w');
    case _ =>
  }

  /** The files a planning step may change: the awaited metadata file and its staging. */
  ghost predicate Untouchable(run: Run, repo: string, x: Path) {
    run.Awaited().None? ||
    match ConfineMetadata(run.Awaited().value.href)
    case Ok(name) => x != MetaPath(repo, name) && x != Staging(MetaPath(repo, name))
    case Err(_) => true
  }

  lemma PlanningFrame(env: Env, w: World, next: nat, a: Action, x: Path)
    requires next < |w.run.selected| && Untouchable(w.run, w.run.selected[next], x)
    ensures Same(w.files, PlanningStep(env, w, next, w.run.selected[next], a).files, x)
  {
  }

  lemma PlanningMissesIndex(env: Env, w: World, next: nat, a: Action, r: string, p: Path)
    requires Inv(env, w) && w.run.phase == Planning(next) && next < |w.run.selected|
    requires RepoOk(r) && p in Control(r) && (!NestedInRepodata(r) || p in {IndexPath(r), SignaturePath(r)})
    ensures Same(w.files, PlanningStep(env, w, next, w.run.selected[next], a).files, p)
  {
    var q := w.run.selected[next];
    if w.run.Awaited().Some? && ConfineMetadata(w.run.Awaited().value.href).Ok? {
      MetadataMissesControl(q, w.run.Awaited().value.href, r, p);
    }
    PlanningFrame(env, w, next, a, p);
  }

  ghost predicate NoStart(actions: seq<Action>) {
    forall a | a in actions :: !a.Start?
  }

  lemma PackageStaysOneStep(env: Env, w: World, a: Action, p: Path)
    requires Inv(env, w) && !a.Start? && PackageName(p)
    requires w.run.phase.Publishing? || w.run.phase.Done? || w.run.phase.Failed?
    ensures var w' := Apply(env, w, a);
            && Inv(env, w') && Same(w.files, w'.files, p)
            && (w'.run.phase.Publishing? || w'.run.phase.Done? || w'.run.phase.Failed?)
  {
    if w.run.phase.Publishing? {
      var i, step := w.run.phase.plan, w.run.phase.step;
      PublishKeeps(env, w, i, step, a, PublishStepOf(env, w, i, step, a));
    }
  }

  /** Once publishing has begun, no package file changes for the rest of the run. */
  lemma {:induction false} PackagesStay(env: Env, w: World, actions: seq<Action>, p: Path)
    requires Inv(env, w) && NoStart(actions) && PackageName(p)
    requires w.run.phase.Publishing? || w.run.phase.Done? || w.run.phase.Failed?
    ensures Same(w.files, Exec(env, w, actions).files, p)
    decreases |actions|
  {
    if actions != [] {
      var a := actions[0];
      assert a in actions;
      PackageStaysOneStep(env, w, a, p);
      PackagesStay(env, Apply(env, w, a), actions[1..], p);
    }
  }

  /** The main result for one run: from the moment anything of phase 3 can be written
      until the run ends, however it ends, every planned package is on disk with its
      declared digest and with the very bytes it had when publishing began. */
  lemma PublishedPackagesStay(env: Env, files: Files, history: seq<Action>, rest: seq<Action>)
    requires NoStart(rest) && Exec(env, Fresh(files), history).run.phase.Publishing?
    ensures var w := Exec(env, Fresh(files), history);
            forall plan, p | plan in w.run.plans && p in plan.packages ::
              OnDisk(env, w.files, p) && Same(w.files, Exec(env, w, rest).files, p.dest)
  {
    var w := Exec(env, Fresh(files), history);
    InvFromFresh(env, files, history);
    FinishedMeansOnDisk(env, w);
    forall plan, p | plan in w.run.plans && p in plan.packages
      ensures Same(w.files, Exec(env, w, rest).files, p.dest)
    {
      AllPackagesMembers(w.run.plans, p);
      PackagesConfined(w.run.plans, p);
      PackagesStay(env, w, rest, p.dest);
    }
  }
}
