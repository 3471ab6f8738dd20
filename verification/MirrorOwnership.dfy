/** Who owns a mirrored repository, over any sequence of runs from any sources, each
    of which may stop anywhere; and what a completed run leaves behind. */
module MirrorOwnership {
  import opened Base
  import opened Segments
  import opened MirrorPaths
  import opened MirrorPlan
  import opened MirrorRun
  import opened MirrorSafety

  /** The index is the one published from `author`, beside a marker naming that source. */
  ghost predicate Owned(env: Env, files: Files, repo: string, author: (string, Bytes)) {
    && IndexPath(repo) in files && files[IndexPath(repo)] == author.1
    && MarkerNames(env, files, author.0, repo)
  }

  ghost predicate MarkerNames(env: Env, files: Files, source: string, repo: string) {
    MarkerPath(repo) in files && env.sourceOf(files[MarkerPath(repo)]) == Some(SourceName(source, repo))
  }

  /** The signature file is the fetched one, or absent when the source publishes none. */
  ghost predicate SignatureMatches(files: Files, plan: Plan) {
    match plan.signature
    case Some(body) => SignaturePath(plan.repo) in files && files[SignaturePath(plan.repo)] == body
    case None => SignaturePath(plan.repo) !in files
  }

  /** Everything phase 3 owes one repository. */
  ghost predicate Published(env: Env, files: Files, source: string, plan: Plan) {
    && MarkerNames(env, files, source, plan.repo) && SignatureMatches(files, plan)
    && IndexPath(plan.repo) in files && files[IndexPath(plan.repo)] == plan.index
  }

  /** What has already been done for the repository being published. */
  ghost predicate StepOk(env: Env, files: Files, source: string, plan: Plan, step: PublishStep) {
    var part := Staging(Target(plan.repo, step));
    match step
    case StageMarker => true
    case PlaceMarker => part in files && env.sourceOf(files[part]) == Some(SourceName(source, plan.repo))
    case StageSignature => MarkerNames(env, files, source, plan.repo)
    case PlaceSignature =>
      && MarkerNames(env, files, source, plan.repo) && plan.signature.Some?
      && part in files && files[part] == plan.signature.value
    case StageIndex => MarkerNames(env, files, source, plan.repo) && SignatureMatches(files, plan)
    case PlaceIndex =>
      && MarkerNames(env, files, source, plan.repo) && SignatureMatches(files, plan)
      && part in files && files[part] == plan.index
  }

  ghost predicate Active(phase: Phase) {
    phase.Planning? || phase.Downloading? || phase.Publishing?
  }

  ghost predicate AuthorsOk(env: Env, w: World) {
    forall r | r in w.authors && !NestedInRepodata(r) :: RepoOk(r) && Owned(env, w.files, r, w.authors[r])
  }

  /** Past the guard, a selected repository that a run published came from this source. */
  ghost predicate SourceOk(w: World) {
    Active(w.run.phase) ==>
      forall r | r in w.run.selected && r in w.authors && !NestedInRepodata(r) :: w.authors[r].0 == w.run.source
  }

  ghost predicate PlannedSoFar(run: Run, next: nat) {
    next <= |run.selected| && forall i | 0 <= i < |run.plans| :: run.plans[i].repo in run.selected[..next]
  }

  ghost predicate DistinctRepos(run: Run) {
    && (forall i, j | 0 <= i < j < |run.selected| :: run.selected[i] != run.selected[j])
    && (forall i, j | 0 <= i < j < |run.plans| :: run.plans[i].repo != run.plans[j].repo)
    && (run.phase.Guarding? ==> run.plans == [])
    && (run.phase.Planning? ==> PlannedSoFar(run, run.phase.next))
  }

  ghost predicate PublishedUpTo(env: Env, w: World, n: nat)
    requires n <= |w.run.plans|
  {
    forall k | 0 <= k < n :: Published(env, w.files, w.run.source, w.run.plans[k])
  }

  ghost predicate ProgressOk(env: Env, w: World) {
    match w.run.phase
    case Publishing(i, step) =>
      i < |w.run.plans| && PublishedUpTo(env, w, i) && StepOk(env, w.files, w.run.source, w.run.plans[i], step)
    case Done => PublishedUpTo(env, w, |w.run.plans|) && EverythingOnDisk(env, w)
    case _ => true
  }

  ghost predicate OwnInv(env: Env, w: World) {
    Inv(env, w) && AuthorsOk(env, w) && SourceOk(w) && DistinctRepos(w.run) && ProgressOk(env, w)
  }

  // -------------------------------------------------------------- frames of a state

  /** A state keeps its owners when it keeps their control files. */
  lemma AuthorsFrame(env: Env, w: World, w': World)
    requires AuthorsOk(env, w) && w'.authors == w.authors
    requires forall r, p | r in w.authors && !NestedInRepodata(r) && p in Control(r) :: Same(w.files, w'.files, p)
    ensures AuthorsOk(env, w')
  {
    forall r | r in w'.authors && !NestedInRepodata(r) ensures Owned(env, w'.files, r, w'.authors[r]) {
      assert Same(w.files, w'.files, IndexPath(r)) && Same(w.files, w'.files, MarkerPath(r));
    }
  }

  lemma PublishedFrame(env: Env, f: Files, g: Files, source: string, plan: Plan)
    requires Published(env, f, source, plan) && forall p | p in Control(plan.repo) :: Same(f, g, p)
    ensures Published(env, g, source, plan)
  {
    assert Same(f, g, IndexPath(plan.repo)) && Same(f, g, MarkerPath(plan.repo))
        && Same(f, g, SignaturePath(plan.repo));
  }

  // ---------------------------------------------------------------- planning, downloading

  lemma PlannedReposStayDistinct(run: Run, run': Run, next: nat)
    requires DistinctRepos(run) && run.phase == Planning(next) && next < |run.selected| && run'.selected == run.selected
    requires run'.phase.Failed? || run'.phase == Planning(next) || run'.phase == Planning(next + 1)
    requires run'.plans == run.plans ||
             (run'.phase == Planning(next + 1) && |run'.plans| == |run.plans| + 1
              && run'.plans[..|run.plans|] == run.plans && run'.plans[|run.plans|].repo == run.selected[next])
    ensures DistinctRepos(run')
  {
    var q := run.selected[next];
    assert run.selected[..next + 1] == run.selected[..next] + [q];
    assert q !in run.selected[..next];
    forall i | 0 <= i < |run.plans| ensures run'.plans[i] == run.plans[i] && run.plans[i].repo in run.selected[..next] {
      assert run'.plans[..|run.plans|][i] == run.plans[i];
    }
  }

  lemma PlanningKeepsOwners(env: Env, w: World, next: nat, a: Action, w': World)
    requires OwnInv(env, w) && w.run.phase == Planning(next) && next < |w.run.selected|
    requires w' == PlanningStep(env, w, next, w.run.selected[next], a) && Inv(env, w')
    ensures OwnInv(env, w')
  {
    PlanningRun(env, w, next, a);
    forall r, p | r in w.authors && !NestedInRepodata(r) && p in Control(r) ensures Same(w.files, w'.files, p) {
      PlanningMissesIndex(env, w, next, a, r, p);
    }
    AuthorsFrame(env, w, w');
    PlannedReposStayDistinct(w.run, w'.run, next);
  }

  lemma WorkMissesControl(env: Env, w: World, a: Action, r: string, p: Path, w': World)
    requires Inv(env, w) && w.run.phase.Downloading? && a.Work? && a.dest in w.run.jobs && p in Control(r)
    requires w' == Download(env, w, a)
    ensures Same(w.files, w'.files, p)
  {
    WorkerStepOk(env, w.files, w.run.jobs[a.dest].package, w.run.jobs[a.dest].worker, a.event);
    ControlIsNotPackage(r, p, a.dest);
  }

  lemma DownloadKeepsOwners(env: Env, w: World, a: Action, w': World)
    requires OwnInv(env, w) && w.run.phase.Downloading? && w' == Download(env, w, a) && Inv(env, w')
    ensures OwnInv(env, w')
  {
    if a.Work? && a.dest in w.run.jobs {
      forall r, p | r in w.authors && !NestedInRepodata(r) && p in Control(r) ensures Same(w.files, w'.files, p) {
        WorkMissesControl(env, w, a, r, p, w');
      }
      AuthorsFrame(env, w, w');
    }
  }

  // ------------------------------------------------------------------------ publishing

  /** One publish step, with the frame it is proved under. */
  lemma PublishProgress(env: Env, w: World, i: nat, step: PublishStep, a: Action, w': World)
    requires i < |w.run.plans| && w.run.phase == Publishing(i, step) && w' == PublishStepOf(env, w, i, step, a)
    requires StepOk(env, w.files, w.run.source, w.run.plans[i], step)
    ensures match w'.run.phase
            case Publishing(j, step') =>
              if j == i then StepOk(env, w'.files, w.run.source, w.run.plans[i], step')
              else j == i + 1 && step' == StageMarker && Published(env, w'.files, w.run.source, w.run.plans[i])
            case Done => i + 1 == |w.run.plans| && Published(env, w'.files, w.run.source, w.run.plans[i])
            case phase => phase.Failed?
    ensures w'.authors in {w.authors, w.authors[w.run.plans[i].repo := (w.run.source, w.run.plans[i].index)]}
    ensures (w'.authors == w.authors && Same(w.files, w'.files, IndexPath(w.run.plans[i].repo))) ||
            (w'.authors == w.authors[w.run.plans[i].repo := (w.run.source, w.run.plans[i].index)]
             && Published(env, w'.files, w.run.source, w.run.plans[i]))
    ensures MarkerNames(env, w.files, w.run.source, w.run.plans[i].repo) ==>
              MarkerNames(env, w'.files, w.run.source, w.run.plans[i].repo)
  {
    var plan := w.run.plans[i];
    var repo := plan.repo;
    var t := Target(repo, step);
    assert t in Control(repo);
    PublishFrameAll(env, w, i, step, a);
    ControlApart(repo);
    ControlIsNotStaging(repo, MarkerPath(repo), t);
    ControlIsNotStaging(repo, SignaturePath(repo), t);
    ControlIsNotStaging(repo, IndexPath(repo), t);
  }

  lemma ControlApart(repo: string)
    ensures MarkerPath(repo) != SignaturePath(repo) && MarkerPath(repo) != IndexPath(repo)
              && SignaturePath(repo) != IndexPath(repo)
    ensures LatestPath(repo) !in {MarkerPath(repo), SignaturePath(repo), IndexPath(repo)}
  {
    assert Last(MarkerPath(repo)) == MARKER && Last(SignaturePath(repo)) == SIGNATURE;
    assert Last(IndexPath(repo)) == REPOMD && Last(LatestPath(repo)) == LATEST;
  }

  /** Publishing one repository leaves every other repository's control files alone. */
  lemma PublishElsewhere(env: Env, w: World, i: nat, step: PublishStep, a: Action, w': World, r: string, p: Path)
    requires i < |w.run.plans| && w' == PublishStepOf(env, w, i, step, a)
    requires r != w.run.plans[i].repo && p in Control(r)
    ensures Same(w.files, w'.files, p)
  {
    TargetsApart(w.run.plans[i].repo, step, r, p);
    PublishFrame(env, w, i, step, a, p);
  }

  lemma PublishKeepsEarlier(env: Env, w: World, i: nat, step: PublishStep, a: Action, w': World)
    requires OwnInv(env, w) && w.run.phase == Publishing(i, step) && w' == PublishStepOf(env, w, i, step, a)
    ensures forall k | 0 <= k < i :: Published(env, w'.files, w.run.source, w.run.plans[k])
  {
    forall k | 0 <= k < i ensures Published(env, w'.files, w.run.source, w.run.plans[k]) {
      forall p | p in Control(w.run.plans[k].repo) ensures Same(w.files, w'.files, p) {
        PublishElsewhere(env, w, i, step, a, w', w.run.plans[k].repo, p);
      }
      PublishedFrame(env, w.files, w'.files, w.run.source, w.run.plans[k]);
    }
  }

  lemma PublishKeepsAuthors(env: Env, w: World, i: nat, step: PublishStep, a: Action, w': World)
    requires OwnInv(env, w) && w.run.phase == Publishing(i, step) && w' == PublishStepOf(env, w, i, step, a)
    ensures AuthorsOk(env, w')
    ensures forall r | r in w.run.selected && r in w'.authors && !NestedInRepodata(r) :: w'.authors[r].0 == w.run.source
  {
    PublishProgress(env, w, i, step, a, w');
    var repo := w.run.plans[i].repo;
    assert w.run.plans[i] in w.run.plans;
    forall r | r in w'.authors && !NestedInRepodata(r) ensures RepoOk(r) && Owned(env, w'.files, r, w'.authors[r]) {
      if r != repo {
        PublishElsewhere(env, w, i, step, a, w', r, IndexPath(r));
        PublishElsewhere(env, w, i, step, a, w', r, MarkerPath(r));
      }
    }
  }

  lemma PublishKeepsProgress(env: Env, w: World, i: nat, step: PublishStep, a: Action, w': World)
    requires OwnInv(env, w) && w.run.phase == Publishing(i, step) && w' == PublishStepOf(env, w, i, step, a)
    ensures ProgressOk(env, w')
  {
    PublishRun(env, w, i, step, a);
    PublishKeeps(env, w, i, step, a, w');
    PublishProgress(env, w, i, step, a, w');
    PublishKeepsEarlier(env, w, i, step, a, w');
    FinishedMeansOnDisk(env, w');
    ProgressFrom(env, w', i);
  }

  /** The progress of a state after a step at plan `i`, from what the step is known to give. */
  lemma ProgressFrom(env: Env, w': World, i: nat)
    requires i < |w'.run.plans| && EverythingOnDisk(env, w')
    requires forall k | 0 <= k < i :: Published(env, w'.files, w'.run.source, w'.run.plans[k])
    requires match w'.run.phase
             case Publishing(j, step') =>
               && j < |w'.run.plans|
               && if j == i then StepOk(env, w'.files, w'.run.source, w'.run.plans[i], step')
                  else j == i + 1 && step' == StageMarker && Published(env, w'.files, w'.run.source, w'.run.plans[i])
             case Done => i + 1 == |w'.run.plans| && Published(env, w'.files, w'.run.source, w'.run.plans[i])
             case phase => phase.Failed?
    ensures ProgressOk(env, w')
  {
  }

  lemma PublishKeepsOwners(env: Env, w: World, i: nat, step: PublishStep, a: Action, w': World)
    requires OwnInv(env, w) && w.run.phase == Publishing(i, step) && w' == PublishStepOf(env, w, i, step, a)
    requires Inv(env, w')
    ensures OwnInv(env, w')
  {
    PublishKeepsProgress(env, w, i, step, a, w');
    PublishKeepsAuthors(env, w, i, step, a, w');
    PublishRun(env, w, i, step, a);
    assert DistinctRepos(w.run);
  }

  // ------------------------------------------------------------------------ every step

  lemma SourceNameInjective(s: string, t: string, repo: string)
    requires SourceName(s, repo) == SourceName(t, repo)
    ensures s == t
  {
    assert |SourceName(s, repo)| == |s| + 1 + |repo| && |SourceName(t, repo)| == |t| + 1 + |repo|;
    assert SourceName(s, repo)[..|s|] == s && SourceName(t, repo)[..|t|] == t;
  }

  /** The guard lets a run past exactly when its source is the one that published. */
  lemma GuardOfOwned(env: Env, files: Files, repo: string, author: (string, Bytes), source: string)
    requires Owned(env, files, repo, author)
    ensures GuardOk(env, files, source, repo) <==> source == author.0
  {
    if GuardOk(env, files, source, repo) {
      SourceNameInjective(source, author.0, repo);
    }
  }

  lemma GuardEstablishes(env: Env, w: World)
    requires OwnInv(env, w) && w.run.phase.Guarding?
    requires forall r | r in w.run.selected :: GuardOk(env, w.files, w.run.source, r)
    ensures OwnInv(env, Enter(w, Planning(0)))
  {
    forall r | r in w.run.selected && r in w.authors && !NestedInRepodata(r) ensures w.authors[r].0 == w.run.source {
      GuardOfOwned(env, w.files, r, w.authors[r], w.run.source);
    }
  }

  lemma ApplyKeepsOwners(env: Env, w: World, a: Action)
    requires OwnInv(env, w)
    ensures OwnInv(env, Apply(env, w, a))
  {
    ApplyKeeps(env, w, a);
    if !a.Start? {
      match w.run.phase
      case Guarding =>
        if a.Guard? && forall r | r in w.run.selected :: GuardOk(env, w.files, w.run.source, r) {
          GuardEstablishes(env, w);
        }
      case Planning(next) =>
        if next < |w.run.selected| {
          PlanningKeepsOwners(env, w, next, a, PlanningStep(env, w, next, w.run.selected[next], a));
        }
      case Downloading => DownloadKeepsOwners(env, w, a, Download(env, w, a));
      case Publishing(i, step) => PublishKeepsOwners(env, w, i, step, a, PublishStepOf(env, w, i, step, a));
      case _ =>
    }
  }

  lemma {:induction false} OwnInvAlways(env: Env, w: World, actions: seq<Action>)
    requires OwnInv(env, w)
    ensures OwnInv(env, Exec(env, w, actions))
    decreases |actions|
  {
    if actions != [] {
      ApplyKeepsOwners(env, w, actions[0]);
      OwnInvAlways(env, Apply(env, w, actions[0]), actions[1..]);
    }
  }

  // ---------------------------------------------------------------------- main results

  /** After any history of runs, however each ended, an index the mirror wrote is still
      the published one and sits beside a marker naming its source; a rerun passes the
      guard for exactly that source. */
  lemma PublishedIndexKeepsItsMarker(env: Env, files: Files, history: seq<Action>, repo: string, source: string)
    requires repo in Exec(env, Fresh(files), history).authors && !NestedInRepodata(repo)
    ensures var w := Exec(env, Fresh(files), history);
            && Owned(env, w.files, repo, w.authors[repo])
            && (GuardOk(env, w.files, source, repo) <==> source == w.authors[repo].0)
  {
    OwnInvAlways(env, Fresh(files), history);
    var w := Exec(env, Fresh(files), history);
    GuardOfOwned(env, w.files, repo, w.authors[repo], source);
  }

  /** A run that completes has, for every planned repository at once, its packages on
      disk, the exact source index, the fetched signature or none, and a marker naming
      the run's source. */
  lemma CompletedRunIsWhole(env: Env, files: Files, history: seq<Action>)
    requires Exec(env, Fresh(files), history).run.phase.Done?
    ensures var w := Exec(env, Fresh(files), history);
            forall plan | plan in w.run.plans ::
              && Published(env, w.files, w.run.source, plan)
              && forall p | p in plan.packages :: OnDisk(env, w.files, p)
  {
    OwnInvAlways(env, Fresh(files), history);
  }

  /** Local feed content no mirror made: an index or a snapshot pointer, and no marker. */
  ghost predicate Foreign(files: Files, repo: string) {
    (IndexPath(repo) in files || LatestPath(repo) in files) && MarkerPath(repo) !in files
  }

  ghost predicate Untouched(f: Files, w: World, repo: string) {
    && (forall p | p in Control(repo) :: Same(f, w.files, p))
    && (Active(w.run.phase) ==> repo !in w.run.selected)
  }

  lemma ForeignIsRefused(env: Env, files: Files, w: World, repo: string)
    requires Foreign(files, repo) && Untouched(files, w, repo)
    ensures !GuardOk(env, w.files, w.run.source, repo)
  {
    assert Same(files, w.files, IndexPath(repo)) && Same(files, w.files, LatestPath(repo))
        && Same(files, w.files, MarkerPath(repo));
  }

  /** No step of a run that did not get past the guard with `repo` touches its control files. */
  lemma ControlFrame(env: Env, w: World, a: Action, repo: string, p: Path, w': World)
    requires OwnInv(env, w) && RepoOk(repo) && !NestedInRepodata(repo) && p in Control(repo)
    requires Active(w.run.phase) ==> repo !in w.run.selected
    requires w' == Apply(env, w, a)
    ensures Same(w.files, w'.files, p)
  {
    if !a.Start? {
      match w.run.phase
      case Planning(next) => if next < |w.run.selected| { PlanningMissesIndex(env, w, next, a, repo, p); }
      case Downloading =>
        if a.Work? && a.dest in w.run.jobs { WorkMissesControl(env, w, a, repo, p, w'); }
      case Publishing(i, step) =>
        assert w.run.plans[i] in w.run.plans;
        PublishElsewhere(env, w, i, step, a, w', repo, p);
      case _ =>
    }
  }

  /** Only a passed guard makes a run active, and no step selects more repositories. */
  lemma ActiveRun(env: Env, w: World, a: Action, w': World)
    requires OwnInv(env, w) && w' == Apply(env, w, a) && Active(w'.run.phase)
    ensures w'.run.selected == w.run.selected
    ensures Active(w.run.phase) || forall r | r in w.run.selected :: GuardOk(env, w.files, w.run.source, r)
  {
    if !a.Start? {
      match w.run.phase
      case Planning(next) => if next < |w.run.selected| { PlanningRun(env, w, next, a); }
      case Publishing(i, step) => PublishRun(env, w, i, step, a);
      case _ =>
    }
  }

  lemma ForeignStep(env: Env, files: Files, w: World, a: Action, repo: string, w': World)
    requires Foreign(files, repo) && RepoOk(repo) && !NestedInRepodata(repo)
    requires OwnInv(env, w) && Untouched(files, w, repo) && w' == Apply(env, w, a)
    ensures Untouched(files, w', repo)
  {
    forall p | p in Control(repo) ensures Same(files, w'.files, p) {
      ControlFrame(env, w, a, repo, p, w');
      assert Same(files, w.files, p);
    }
    ForeignIsRefused(env, files, w, repo);
    if Active(w'.run.phase) {
      ActiveRun(env, w, a, w');
    }
  }

  lemma {:induction false} ForeignFrom(env: Env, files: Files, w: World, actions: seq<Action>, repo: string)
    requires Foreign(files, repo) && RepoOk(repo) && !NestedInRepodata(repo)
    requires OwnInv(env, w) && Untouched(files, w, repo)
    ensures Untouched(files, Exec(env, w, actions), repo)
    decreases |actions|
  {
    if actions != [] {
      ForeignStep(env, files, w, actions[0], repo, Apply(env, w, actions[0]));
      ApplyKeepsOwners(env, w, actions[0]);
      ForeignFrom(env, files, Apply(env, w, actions[0]), actions[1..], repo);
    }
  }

  /** A repository that began with an index or a pointer but no marker never has its
      index, signature, marker or pointer written, by any history of runs. */
  lemma ForeignRepositoryIsNeverWritten(env: Env, files: Files, history: seq<Action>, repo: string)
    requires Foreign(files, repo) && RepoOk(repo) && !NestedInRepodata(repo)
    ensures forall p | p in Control(repo) :: Same(files, Exec(env, Fresh(files), history).files, p)
  {
    ForeignFrom(env, files, Fresh(files), history, repo);
  }

  /** The world with one awaited metadata file staged and placed. */
  ghost function WithMeta(env: Env, w: World, body: Bytes): World {
    Apply(env, Apply(env, w, StageMeta(body)), PlaceMeta)
  }

  /** Bytes that an awaited entry accepts can be put in place, and nothing else moves. */
  lemma MetaIsPlaced(env: Env, w: World, next: nat, name: string, body: Bytes)
    requires w.run.phase == Planning(next) && next < |w.run.selected| && w.run.Awaited().Some?
    requires ConfineMetadata(w.run.Awaited().value.href) == Ok(name) && Accepts(env, w.run.Awaited().value, body)
    ensures var placed, p := WithMeta(env, w, body), MetaPath(w.run.selected[next], name);
            && placed.authors == w.authors && p in placed.files && placed.files[p] == body
            && (forall q | q != p && q != Staging(p) :: Same(w.files, placed.files, q))
            && var index := w.run.fetching.value;
               placed.run == w.run.(fetching := Some(index.(placed := index.placed + 1)))
  {
    var p := MetaPath(w.run.selected[next], name);
    assert Staging(p) != p by {
      assert Last(Staging(p)) == name + PART && Last(p) == name;
    }
  }

  /** Why repositories nested in another's `repodata` are set apart: planning the outer one
      can put any bytes its index declares in their marker, or in their pointer. */
  lemma NestedControlCanBeOverwritten(env: Env, w: World, next: nat, name: string, body: Bytes)
    requires w.run.phase == Planning(next) && next < |w.run.selected| && RepoOk(w.run.selected[next])
    requires name in {MARKER, LATEST} && w.run.Awaited().Some?
    requires w.run.Awaited().value.href == REPODATA + "/" + name && Accepts(env, w.run.Awaited().value, body)
    ensures var placed, p := WithMeta(env, w, body), MetaPath(w.run.selected[next], name);
            && placed.authors == w.authors && p in Control(w.run.selected[next] + "/" + REPODATA)
            && p in placed.files && placed.files[p] == body
  {
    MetadataCanHitControl(w.run.selected[next], name);
    MetaIsPlaced(env, w, next, name, body);
  }
}
