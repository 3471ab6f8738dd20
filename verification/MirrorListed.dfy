/** The packages of every index on disk, also of those that earlier runs published: what a
    later run can do to them, and exactly when it cannot. */
module MirrorListed {
  import opened Base
  import opened Segments
  import opened MirrorPaths
  import opened MirrorPlan
  import opened MirrorRun
  import opened MirrorSafety
  import opened MirrorProgress

  /** For each repository with a published index, the packages that index lists. */
  type Listings = map<string, seq<Package>>

  /** What a step adds: placing an index lists what its plan lists. */
  ghost function ListedAfter(env: Env, w: World, listed: Listings, a: Action): Listings {
    if a.Publish? && w.run.phase.Publishing? && w.run.phase.step.PlaceIndex? && w.run.phase.plan < |w.run.plans| &&
       Staging(IndexPath(w.run.plans[w.run.phase.plan].repo)) in w.files
    then listed[w.run.plans[w.run.phase.plan].repo := w.run.plans[w.run.phase.plan].packages]
    else listed
  }

  ghost function ListedExec(env: Env, w: World, listed: Listings, actions: seq<Action>): Listings
    decreases |actions|
  {
    if actions == [] then listed
    else ListedExec(env, Apply(env, w, actions[0]), ListedAfter(env, w, listed, actions[0]), actions[1..])
  }

  /** The package is of a published index. */
  ghost predicate Listed(listed: Listings, p: Package) {
    exists r | r in listed :: p in listed[r]
  }

  ghost predicate ListedOnDisk(env: Env, files: Files, listed: Listings) {
    forall p | Listed(listed, p) :: OnDisk(env, files, p)
  }

  // ------------------------------------------------------------------- one step, exactly

  ghost predicate Placeable(p: Package) {
    PackageName(p.dest) && REPODATA !in p.dest
  }

  /** The step puts bytes over the package that are not the declared ones. */
  ghost predicate PlacesOver(env: Env, w: World, a: Action, p: Package)
    requires p.dest != []
  {
    && w.run.phase.Downloading? && a == Work(p.dest, Place) && p.dest in w.run.jobs
    && w.run.jobs[p.dest].worker.Verified? && !Matching(env, w.files, p)
  }

  lemma MetadataMissesPackage(repo: string, name: string, d: Path)
    requires REPODATA !in d
    ensures d != MetaPath(repo, name) && d != Staging(MetaPath(repo, name))
  {
    var m := MetaPath(repo, name);
    assert m[|m| - 2] == REPODATA && Staging(m)[|m| - 2] == REPODATA;
  }

  /** Outside the download phase no step touches a package file. */
  lemma PackageKept(env: Env, w: World, a: Action, d: Path)
    requires Inv(env, w) && !w.run.phase.Downloading? && PackageName(d) && REPODATA !in d
    ensures Same(w.files, Apply(env, w, a).files, d)
  {
    if !a.Start? {
      match w.run.phase
      case Planning(next) =>
        if next < |w.run.selected| {
          if w.run.Awaited().Some? && ConfineMetadata(w.run.Awaited().value.href).Ok? {
            MetadataMissesPackage(w.run.selected[next], ConfineMetadata(w.run.Awaited().value.href).value, d);
          }
          PlanningFrame(env, w, next, a, d);
        }
      case Publishing(i, step) => PublishKeeps(env, w, i, step, a, PublishStepOf(env, w, i, step, a));
      case _ =>
    }
  }

  /** A package on disk is lost in one step exactly when a worker puts other bytes over it. */
  lemma LostExact(env: Env, w: World, a: Action, p: Package)
    requires Inv(env, w) && Placeable(p) && OnDisk(env, w.files, p)
    ensures !OnDisk(env, Apply(env, w, a).files, p) <==> PlacesOver(env, w, a, p)
  {
    if !w.run.phase.Downloading? {
      PackageKept(env, w, a, p.dest);
    } else if a.Work? && a.dest in w.run.jobs {
      WorkLostExact(env, w, a.dest, a.event, p);
    }
  }

  lemma WorkLostExact(env: Env, w: World, d: Path, event: WorkEvent, p: Package)
    requires Inv(env, w) && w.run.phase.Downloading? && d in w.run.jobs
    requires PackageName(p.dest) && OnDisk(env, w.files, p)
    ensures !OnDisk(env, Download(env, w, Work(d, event)).files, p) <==> PlacesOver(env, w, Work(d, event), p)
  {
    var job := w.run.jobs[d];
    if d == p.dest {
      OwnLostExact(env, w.files, job.package, job.worker, event, p);
    } else {
      WorkerStepOk(env, w.files, job.package, job.worker, event);
      PackagesApart(p.dest, d);
      assert Same(w.files, Download(env, w, Work(d, event)).files, p.dest);
    }
  }

  lemma OwnLostExact(env: Env, files: Files, q: Package, worker: Worker, event: WorkEvent, p: Package)
    requires PackageName(p.dest) && q.dest == p.dest && JobOk(env, files, q, worker) && OnDisk(env, files, p)
    ensures !OnDisk(env, WorkerStep(env, files, q, worker, event).0, p) <==>
            worker.Verified? && event.Place? && !Matching(env, files, p)
  {
    PackagesApart(p.dest, p.dest);
  }

  // ------------------------------------------------------- what threatens a listed package

  predicate UpToDate(env: Env, files: Files, q: Package) {
    q.dest in files && |files[q.dest]| == q.size && env.digest(q.ctype, files[q.dest]) == q.checksum
  }

  /** Planning `q` at the destination of `p` can cost `p`: the file there is not yet what `q`
      declares, and the source could serve `q` with bytes that are not what `p` declares. */
  ghost predicate Threatens(env: Env, files: Files, q: Package, p: Package) {
    !UpToDate(env, files, q) && exists body | Served(env, q, body) :: env.digest(p.ctype, body) != p.checksum
  }

  /** Under one type of checksum: a threat declares another value, is not on disk, and can be
      served. */
  lemma ThreatOfOneType(env: Env, files: Files, q: Package, p: Package)
    requires q.ctype == p.ctype
    ensures Threatens(env, files, q, p) <==>
            !UpToDate(env, files, q) && q.checksum != p.checksum && exists body :: Served(env, q, body)
  {
    if body :| Served(env, q, body) {
      assert env.digest(p.ctype, body) == q.checksum;
    }
  }

  ghost predicate NoThreat(env: Env, w: World, listed: Listings) {
    forall p | Listed(listed, p) && p.dest in w.run.jobs :: !Threatens(env, w.files, w.run.jobs[p.dest].package, p)
  }

  /** The checks pass on this step, and the download phase begins. */
  ghost predicate Begins(env: Env, w: World, a: Action) {
    a.Check? && w.run.phase.Planning? && w.run.phase.next >= |w.run.selected| && ChecksPass(w, a.free)
  }

  /** Wherever along the way a run's checks pass, none of its packages threatens a listed one. */
  ghost predicate NeverThreatened(env: Env, w: World, listed: Listings, actions: seq<Action>)
    decreases |actions|
  {
    actions == [] ||
    var (w', listed') := (Apply(env, w, actions[0]), ListedAfter(env, w, listed, actions[0]));
    (Begins(env, w, actions[0]) ==> NoThreat(env, w', listed)) && NeverThreatened(env, w', listed', actions[1..])
  }

  // ------------------------------------------------------------------------ the invariant

  /** Why the worker of `q` cannot cost `p`: any bytes it may place are also what `p` declares,
      or it will place none. */
  ghost predicate Harmless(env: Env, files: Files, p: Package, q: Package, worker: Worker) {
    || (forall body | Served(env, q, body) :: env.digest(p.ctype, body) == p.checksum)
    || (UpToDate(env, files, q) && (worker.Queued? || worker.Hashing? || worker.Finished? || worker.Aborted?))
  }

  ghost predicate ListedInv(env: Env, w: World, listed: Listings) {
    && Inv(env, w) && listed.Keys == w.authors.Keys
    && (forall p | Listed(listed, p) :: Placeable(p) && OnDisk(env, w.files, p))
    && (w.run.phase.Downloading? ==>
          forall p | Listed(listed, p) && p.dest in w.run.jobs ::
            Harmless(env, w.files, p, w.run.jobs[p.dest].package, w.run.jobs[p.dest].worker))
  }

  lemma HarmlessStays(env: Env, files: Files, p: Package, q: Package, worker: Worker, event: WorkEvent)
    requires PackageName(q.dest) && q.dest == p.dest && JobOk(env, files, q, worker)
    requires OnDisk(env, files, p) && Harmless(env, files, p, q, worker)
    ensures var (files', worker') := WorkerStep(env, files, q, worker, event);
            Harmless(env, files', p, q, worker') && OnDisk(env, files', p)
  {
    PackagesApart(q.dest, q.dest);
    if worker.Verified? && Staging(q.dest) in files {
      assert Served(env, q, files[Staging(q.dest)]);
    }
  }

  lemma DownloadKeepsListed(env: Env, w: World, listed: Listings, d: Path, event: WorkEvent, p: Package)
    requires ListedInv(env, w, listed) && w.run.phase.Downloading? && d in w.run.jobs && Listed(listed, p)
    ensures var w' := Download(env, w, Work(d, event));
            && OnDisk(env, w'.files, p)
            && (p.dest in w'.run.jobs ==>
                Harmless(env, w'.files, p, w'.run.jobs[p.dest].package, w'.run.jobs[p.dest].worker))
  {
    var job := w.run.jobs[d];
    assert JobOk(env, w.files, job.package, job.worker);
    if d == p.dest {
      HarmlessStays(env, w.files, p, job.package, job.worker, event);
    } else {
      WorkerStepOk(env, w.files, job.package, job.worker, event);
      PackagesApart(p.dest, d);
      assert Same(w.files, Download(env, w, Work(d, event)).files, p.dest);
    }
  }

  /** The packages of the index being placed are on disk. */
  lemma NewlyListed(env: Env, w: World, listed: Listings, a: Action, p: Package)
    requires ListedInv(env, w, listed) && Listed(ListedAfter(env, w, listed, a), p)
    ensures Placeable(p) && OnDisk(env, w.files, p)
  {
    if !Listed(listed, p) {
      FinishedMeansOnDisk(env, w);
      var plan := w.run.plans[w.run.phase.plan];
      var after := ListedAfter(env, w, listed, a);
      var r :| r in after && p in after[r];
      assert r == plan.repo && p in plan.packages && plan in w.run.plans;
      assert Confined(plan.repo, p);
    }
  }

  lemma KeysFollow(env: Env, w: World, listed: Listings, a: Action)
    requires Inv(env, w) && listed.Keys == w.authors.Keys
    ensures ListedAfter(env, w, listed, a).Keys == Apply(env, w, a).authors.Keys
  {
    if !a.Start? {
      match w.run.phase
      case Planning(next) => if next < |w.run.selected| { PlanningRun(env, w, next, a); }
      case Publishing(i, step) => PublishingKeys(env, w, listed, i, step, a);
      case _ =>
    }
  }

  lemma PublishingKeys(env: Env, w: World, listed: Listings, i: nat, step: PublishStep, a: Action)
    requires w.run.phase == Publishing(i, step) && i < |w.run.plans| && listed.Keys == w.authors.Keys
    ensures ListedAfter(env, w, listed, a).Keys == PublishStepOf(env, w, i, step, a).authors.Keys
  {
  }

  lemma BeginsHarmless(env: Env, w: World, listed: Listings, a: Action)
    requires ListedInv(env, w, listed) && Begins(env, w, a) && NoThreat(env, Apply(env, w, a), listed)
    ensures var w' := Apply(env, w, a);
            forall p | Listed(listed, p) && p.dest in w'.run.jobs ::
              Harmless(env, w'.files, p, w'.run.jobs[p.dest].package, w'.run.jobs[p.dest].worker)
  {
    UniqueExact(AllPackages(w.run.plans));
    JobsOfPackages(Unique(AllPackages(w.run.plans)));
  }

  lemma StepKeepsListed(env: Env, w: World, listed: Listings, a: Action)
    requires ListedInv(env, w, listed)
    requires Begins(env, w, a) ==> NoThreat(env, Apply(env, w, a), listed)
    ensures ListedInv(env, Apply(env, w, a), ListedAfter(env, w, listed, a))
  {
    var w', after := Apply(env, w, a), ListedAfter(env, w, listed, a);
    ApplyKeeps(env, w, a);
    KeysFollow(env, w, listed, a);
    if w.run.phase.Downloading? {
      if a.Work? && a.dest in w.run.jobs {
        forall p | Listed(listed, p) {
          DownloadKeepsListed(env, w, listed, a.dest, a.event, p);
        }
      }
    } else {
      forall p | Listed(after, p) ensures Placeable(p) && OnDisk(env, w'.files, p) {
        NewlyListed(env, w, listed, a, p);
        PackageKept(env, w, a, p.dest);
      }
      if w'.run.phase.Downloading? {
        PhaseBegins(env, w, a);
        BeginsHarmless(env, w, listed, a);
      }
    }
  }

  lemma PhaseBegins(env: Env, w: World, a: Action)
    requires Inv(env, w) && !w.run.phase.Downloading? && Apply(env, w, a).run.phase.Downloading?
    ensures Begins(env, w, a)
  {
    match w.run.phase
    case Planning(next) => if !a.Start? && next < |w.run.selected| { PlanningRun(env, w, next, a); }
    case Publishing(i, step) => if !a.Start? { PublishRun(env, w, i, step, a); }
    case _ =>
  }

  lemma {:induction false} ListedInvAlways(env: Env, w: World, listed: Listings, actions: seq<Action>)
    requires ListedInv(env, w, listed) && NeverThreatened(env, w, listed, actions)
    ensures ListedInv(env, Exec(env, w, actions), ListedExec(env, w, listed, actions))
    decreases |actions|
  {
    if actions != [] {
      StepKeepsListed(env, w, listed, actions[0]);
      ListedInvAlways(env, Apply(env, w, actions[0]), ListedAfter(env, w, listed, actions[0]), actions[1..]);
    }
  }

  // ------------------------------------------------------------------------ main results

  /** Over any history of runs in which no planned package ever threatened a listed one when
      its run's checks passed, the packages of every index the mirror has published are on
      disk with their declared digests. */
  lemma ListedPackagesStay(env: Env, files: Files, history: seq<Action>)
    requires NeverThreatened(env, Fresh(files), map[], history)
    ensures var (w, listed) := (Exec(env, Fresh(files), history), ListedExec(env, Fresh(files), map[], history));
            listed.Keys == w.authors.Keys && ListedOnDisk(env, w.files, listed)
  {
    ListedInvAlways(env, Fresh(files), map[], history);
  }

  ghost predicate PastPlanning(phase: Phase) {
    phase.Downloading? || phase.Publishing? || phase.Done? || phase.Failed?
  }

  /** Within one run the checks pass once. */
  lemma {:induction false} NoMoreChecks(env: Env, w: World, listed: Listings, actions: seq<Action>)
    requires Inv(env, w) && PastPlanning(w.run.phase) && NoStart(actions)
    ensures NeverThreatened(env, w, listed, actions)
    decreases |actions|
  {
    if actions != [] {
      var a := actions[0];
      assert a in actions;
      if w.run.phase.Publishing? {
        PublishRun(env, w, w.run.phase.plan, w.run.phase.step, a);
      }
      ApplyKeeps(env, w, a);
      NoMoreChecks(env, Apply(env, w, a), ListedAfter(env, w, listed, a), actions[1..]);
    }
  }

  lemma {:induction false} WorkListsNothing(env: Env, w: World, listed: Listings, d: Path, events: seq<WorkEvent>)
    requires w.run.phase.Downloading?
    ensures ListedExec(env, w, listed, At(d, events)) == listed
    decreases |events|
  {
    if events != [] {
      assert At(d, events)[0] == Work(d, events[0]) && At(d, events)[1..] == At(d, events[1..]);
      WorkListsNothing(env, Apply(env, w, Work(d, events[0])), listed, d, events[1..]);
    }
  }

  /** A package that is not up to date is fetched, whatever bytes the source serves for it. */
  lemma QueuedPlaces(env: Env, files: Files, q: Package, body: Bytes)
    requires PackageName(q.dest) && Served(env, q, body) && !UpToDate(env, files, q)
    ensures var after := WorkerRun(env, files, q, Queued, [Stat] + ([Hash] + FetchScript(body))).0;
            q.dest in after && after[q.dest] == body
  {
    PackagesApart(q.dest, q.dest);
    var (f1, w1) := WorkerStep(env, files, q, Queued, Stat);
    var (f2, w2) := WorkerStep(env, f1, q, w1, Hash);
    WorkerRunStep(env, files, q, Queued, Stat, [Hash] + FetchScript(body));
    WorkerRunStep(env, f1, q, w1, Hash, FetchScript(body));
    FetchPlaces(env, f2, q, w2, body);
  }

  lemma FetchPlaces(env: Env, files: Files, q: Package, worker: Worker, body: Bytes)
    requires PackageName(q.dest) && worker.Fetching? && Served(env, q, body)
    ensures var after := WorkerRun(env, files, q, worker, FetchScript(body)).0;
            q.dest in after && after[q.dest] == body
  {
    PackagesApart(q.dest, q.dest);
    var (f1, w1) := WorkerStep(env, files, q, worker, Receive(body));
    var (f2, w2) := WorkerStep(env, f1, q, w1, EndOfBody);
    var (f3, w3) := WorkerStep(env, f2, q, w2, Verify);
    var (f4, w4) := WorkerStep(env, f3, q, w3, Place);
    WorkerRunStep(env, files, q, worker, Receive(body), [EndOfBody] + ([Verify] + ([Place] + [])));
    WorkerRunStep(env, f1, q, w1, EndOfBody, [Verify] + ([Place] + []));
    WorkerRunStep(env, f2, q, w2, Verify, [Place] + []);
    WorkerRunStep(env, f3, q, w3, Place, []);
  }

  /** A threat can come true: the threatening package is fetched, and the run goes no further. */
  lemma ThreatComesTrue(env: Env, w: World, listed: Listings, p: Package) returns (rest: seq<Action>)
    requires Inv(env, w) && w.run.phase.Downloading? && Listed(listed, p) && p.dest in w.run.jobs
    requires w.run.jobs[p.dest].worker == Queued && Threatens(env, w.files, w.run.jobs[p.dest].package, p)
    ensures NoStart(rest) && !ListedOnDisk(env, Exec(env, w, rest).files, ListedExec(env, w, listed, rest))
  {
    var q := w.run.jobs[p.dest].package;
    var body :| Served(env, q, body) && env.digest(p.ctype, body) != p.checksum;
    var events := [Stat] + ([Hash] + FetchScript(body));
    rest := At(p.dest, events);
    QueuedPlaces(env, w.files, q, body);
    WorkerInRun(env, w, p.dest, events);
    WorkListsNothing(env, w, listed, p.dest, events);
    assert !OnDisk(env, Exec(env, w, rest).files, p);
  }

  /** Exactly when a run that has just passed its checks is safe for the packages of every
      index there is: however it goes on, and wherever it stops, all of them stay on disk if
      and only if none of the packages it planned threatens one of them. */
  lemma RunSparesListedExact(env: Env, files: Files, history: seq<Action>, a: Action)
    requires NeverThreatened(env, Fresh(files), map[], history) && Begins(env, Exec(env, Fresh(files), history), a)
    ensures var listed := ListedExec(env, Fresh(files), map[], history);
            var w' := Apply(env, Exec(env, Fresh(files), history), a);
            (forall rest | NoStart(rest) ::
               ListedOnDisk(env, Exec(env, w', rest).files, ListedExec(env, w', listed, rest))) <==>
            NoThreat(env, w', listed)
  {
    var w, listed := Exec(env, Fresh(files), history), ListedExec(env, Fresh(files), map[], history);
    var w' := Apply(env, w, a);
    ListedInvAlways(env, Fresh(files), map[], history);
    ApplyKeeps(env, w, a);
    if NoThreat(env, w', listed) {
      StepKeepsListed(env, w, listed, a);
      forall rest | NoStart(rest)
        ensures ListedOnDisk(env, Exec(env, w', rest).files, ListedExec(env, w', listed, rest))
      {
        NoMoreChecks(env, w', listed, rest);
        ListedInvAlways(env, w', listed, rest);
      }
    } else {
      UniqueExact(AllPackages(w.run.plans));
      JobsOfPackages(Unique(AllPackages(w.run.plans)));
      var p :| Listed(listed, p) && p.dest in w'.run.jobs
               && Threatens(env, w'.files, w'.run.jobs[p.dest].package, p);
      var rest := ThreatComesTrue(env, w', listed, p);
    }
  }
}
