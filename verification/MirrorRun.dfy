/** A mirror run as a step system over the files of one channel directory: guard,
    plan, check, concurrent download, publish. Download workers interleave freely,
    any step may fail, and a crash is simply a run that takes no further step until
    the next `Start`. */
module MirrorRun {
  import opened Base
  import opened Segments
  import opened MirrorPaths
  import opened MirrorPlan

  /** A metadata file as an index names it; a size is not always declared. */
  datatype MetaEntry = MetaEntry(primary: bool, href: string, ctype: string, checksum: string, size: Option<nat>)

  /** What the run computes from bytes but this model does not look inside: the digest of a
      file, the source a marker file names (None when unreadable), and the metadata files an
      index names (None when it cannot be parsed). */
  datatype Env = Env(
    digest: (string, Bytes) -> string,
    sourceOf: Bytes -> Option<string>,
    entriesOf: Bytes -> Option<seq<MetaEntry>>)

  /** The bytes are what an index declares for a metadata file. */
  predicate Accepts(env: Env, e: MetaEntry, body: Bytes) {
    env.digest(e.ctype, body) == e.checksum && (e.size.Some? ==> |body| <= e.size.value)
  }

  function MarkerPath(repo: string): Path { Split(repo) + [MARKER] }

  function LatestPath(repo: string): Path { Split(repo) + [LATEST] }

  function MetaPath(repo: string, name: string): Path { Split(repo) + [REPODATA] + [name] }

  function IndexPath(repo: string): Path { MetaPath(repo, REPOMD) }

  function SignaturePath(repo: string): Path { MetaPath(repo, SIGNATURE) }

  /** The `.part` sibling a file is staged in. */
  function Staging(path: Path): Path
    requires path != []
  {
    Front(path) + [Last(path) + PART]
  }

  const ATTEMPTS: nat := 3

  datatype Worker =
    | Queued
    | Hashing
    | Fetching(attempt: nat)
    | Fetched(attempt: nat)
    | Verified(attempt: nat, size: nat)
    | Finished(result: PackageResult)
    | Aborted

  datatype Job = Job(package: Package, worker: Worker)

  datatype PublishStep = StageMarker | PlaceMarker | StageSignature | PlaceSignature | StageIndex | PlaceIndex

  datatype Phase =
    | Guarding
    | Planning(next: nat)
    | Downloading
    | Publishing(plan: nat, step: PublishStep)
    | Done
    | Failed

  /** The index of the repository being planned, the metadata files it names, and how many of
      them have been put in place. */
  datatype Index = Index(body: Bytes, entries: seq<MetaEntry>, placed: nat)

  datatype Run = Run(
    source: string,
    selected: seq<string>,
    optional: set<string>,
    phase: Phase,
    plans: seq<Plan>,
    jobs: map<Path, Job>,
    before: Files,
    fetching: Option<Index>)
  {
    /** The metadata file to fetch next, if there is one. */
    function Awaited(): Option<MetaEntry> {
      if fetching.Some? && fetching.value.placed < |fetching.value.entries|
      then Some(fetching.value.entries[fetching.value.placed])
      else None
    }

    /** Every metadata file is in place and a listing of packages is among them. */
    predicate Listable() {
      && fetching.Some? && fetching.value.placed == |fetching.value.entries|
      && exists e | e in fetching.value.entries :: e.primary
    }
  }

  /** `authors` remembers, for each index a run has published, the source and the bytes. */
  datatype World = World(files: Files, run: Run, authors: map<string, (string, Bytes)>)

  datatype WorkEvent =
    | Stat
    | Hash
    | Receive(body: Bytes)
    | EndOfBody
    | Drop(permanent: bool)
    | Verify
    | Place
    | Cancel
    | Break

  datatype Action =
    | Start(source: string, selected: seq<string>, optional: set<string>)
    | Guard
    | FetchIndex(index: Bytes)
    | StageMeta(body: Bytes)
    | DropMeta
    | PlaceMeta
    | PlanRepo(signature: Option<Bytes>, listing: seq<Entry>)
    | SkipRepo
    | Check(free: nat)
    | Work(dest: Path, event: WorkEvent)
    | JoinWorkers
    | Scribble(partial: Bytes)
    | Publish(marker: Bytes)
    | Abort

  // ------------------------------------------------------------- ownership guard

  function SourceName(source: string, repo: string): string {
    source + "/" + repo
  }

  /** Fresh, or owned by a marker that names this very source. */
  predicate GuardOk(env: Env, files: Files, source: string, repo: string) {
    (IndexPath(repo) in files || LatestPath(repo) in files) ==>
      MarkerPath(repo) in files && env.sourceOf(files[MarkerPath(repo)]) == Some(SourceName(source, repo))
  }

  // ------------------------------------------------------------------ download workers

  function AfterTransient(attempt: nat): Worker {
    if attempt + 1 >= ATTEMPTS then Aborted else Fetching(attempt + 1)
  }

  function Remove(files: Files, p: Path): Files {
    files - {p}
  }

  function Move(files: Files, from: Path, to: Path): Files
    requires from in files
  {
    Remove(files[to := files[from]], from)
  }

  /** One step of one worker on its package. An event the worker is not ready for
      changes nothing. */
  function WorkerStep(env: Env, files: Files, p: Package, worker: Worker, event: WorkEvent): (Files, Worker)
    requires p.dest != []
  {
    var part := Staging(p.dest);
    match (worker, event)
    case (Queued, Stat) =>
      (files, if p.dest in files && |files[p.dest]| == p.size then Hashing else Fetching(0))
    case (Queued, Cancel) => (files, Aborted)
    case (Hashing, Hash) =>
      if p.dest in files && env.digest(p.ctype, files[p.dest]) == p.checksum
      then (files, Finished(PackageResult(false, p.size)))
      else (files, Fetching(0))
    case (Fetching(_), Receive(body)) =>
      // The staged body so far; a bounded copy never stages more than the declared size.
      if |body| <= p.size then (files[part := body], worker) else (files, worker)
    case (Fetching(k), EndOfBody) =>
      (files, if part in files && |files[part]| <= p.size then Fetched(k) else worker)
    case (Fetching(k), Drop(permanent)) =>
      (Remove(files, part), if permanent then Aborted else AfterTransient(k))
    case (Fetched(k), Verify) =>
      if part in files && env.digest(p.ctype, files[part]) == p.checksum
      then (files, Verified(k, |files[part]|))
      else (Remove(files, part), AfterTransient(k))
    case (Verified(_, size), Place) =>
      if part in files then (Move(files, part, p.dest), Finished(PackageResult(true, size))) else (files, Aborted)
    case (Finished(_), Break) => (files, worker)
    case (_, Break) => (files, Aborted)
    case _ => (files, worker)
  }

  function Jobs(packages: seq<Package>): map<Path, Job> {
    if packages == [] then map[]
    else Jobs(packages[..|packages| - 1])[packages[|packages| - 1].dest := Job(packages[|packages| - 1], Queued)]
  }

  predicate AllFinished(jobs: map<Path, Job>) {
    forall d | d in jobs :: jobs[d].worker.Finished?
  }

  predicate AllStopped(jobs: map<Path, Job>) {
    forall d | d in jobs :: jobs[d].worker.Finished? || jobs[d].worker.Aborted?
  }

  // ---------------------------------------------------------------------- the steps

  function Enter(w: World, phase: Phase): World {
    w.(run := w.run.(phase := phase))
  }

  ghost predicate ChecksPass(w: World, free: nat) {
    && NoConflicts(AllPackages(w.run.plans))
    && NoCrossLanding(w.run.selected, w.run.plans)
    && Required(w.files, Unique(AllPackages(w.run.plans))) <= free
  }

  /** One step of fetching a metadata file into `dest`. */
  ghost function MetaStep(env: Env, w: World, e: MetaEntry, dest: Path, a: Action): World
    requires dest != [] && w.run.fetching.Some?
  {
    var part := Staging(dest);
    match a
    case StageMeta(body) =>
      if e.size.Some? && |body| > e.size.value then w else w.(files := w.files[part := body])
    case DropMeta => w.(files := Remove(w.files, part))
    case PlaceMeta =>
      if part in w.files && Accepts(env, e, w.files[part]) then
        var index := w.run.fetching.value;
        w.(files := Move(w.files, part, dest),
           run := w.run.(fetching := Some(index.(placed := index.placed + 1))))
      else w
    case _ => w
  }

  /** Fetching the index of a repository; one that is not published is skipped if it may be. */
  ghost function IndexStep(env: Env, w: World, next: nat, repo: string, a: Action): World {
    match a
    case FetchIndex(body) =>
      (match env.entriesOf(body)
       case Some(entries) => w.(run := w.run.(fetching := Some(Index(body, entries, 0))))
       case None => Enter(w, Failed))
    case SkipRepo => Enter(w, if repo in w.run.optional then Planning(next + 1) else Failed)
    case _ => w
  }

  /** Planning the packages, once every metadata file is in place. */
  ghost function ListStep(w: World, next: nat, repo: string, a: Action): World
    requires w.run.fetching.Some?
  {
    match a
    case PlanRepo(signature, listing) =>
      if w.run.Listable() && PlanPackages(repo, listing).Ok? then
        var plan := Plan(repo, w.run.fetching.value.body, signature, PlanPackages(repo, listing).value);
        Enter(w.(run := w.run.(plans := w.run.plans + [plan], fetching := None)), Planning(next + 1))
      else Enter(w, Failed)
    case _ => w
  }

  ghost function PlanningStep(env: Env, w: World, next: nat, repo: string, a: Action): World {
    if a.Abort? then Enter(w, Failed)
    else if w.run.fetching.None? then IndexStep(env, w, next, repo, a)
    else if w.run.Awaited().None? then ListStep(w, next, repo, a)
    else
      match ConfineMetadata(w.run.Awaited().value.href)
      case Ok(name) => MetaStep(env, w, w.run.Awaited().value, MetaPath(repo, name), a)
      case Err(_) => Enter(w, Failed)
  }

  ghost function Download(env: Env, w: World, a: Action): World {
    match a
    case Work(d, event) =>
      if d in w.run.jobs && d != [] && w.run.jobs[d].package.dest == d then
        var job := w.run.jobs[d];
        var (files, worker) := WorkerStep(env, w.files, job.package, job.worker, event);
        World(files, w.run.(jobs := w.run.jobs[d := Job(job.package, worker)]), w.authors)
      else w
    case JoinWorkers =>
      if AllFinished(w.run.jobs) then Enter(w, if w.run.plans == [] then Done else Publishing(0, StageMarker))
      else if AllStopped(w.run.jobs) then Enter(w, Failed)
      else w
    case _ => w
  }

  /** Where the current publish step stages and places its file. */
  function Target(repo: string, step: PublishStep): Path {
    match step
    case StageMarker => MarkerPath(repo)
    case PlaceMarker => MarkerPath(repo)
    case StageSignature => SignaturePath(repo)
    case PlaceSignature => SignaturePath(repo)
    case StageIndex => IndexPath(repo)
    case PlaceIndex => IndexPath(repo)
  }

  ghost function PublishStepOf(env: Env, w: World, i: nat, step: PublishStep, a: Action): World
    requires i < |w.run.plans|
  {
    var plan := w.run.plans[i];
    var target := Target(plan.repo, step);
    var part := Staging(target);
    match a
    case Abort => Enter(w, Failed)
    case Scribble(partial) =>
      if step.StageMarker? || step.StageSignature? || step.StageIndex?
      then w.(files := w.files[part := partial])
      else w
    case Publish(marker) =>
      (match step
       case StageMarker =>
         if env.sourceOf(marker) == Some(SourceName(w.run.source, plan.repo))
         then Enter(w.(files := w.files[part := marker]), Publishing(i, PlaceMarker))
         else w
       case PlaceMarker =>
         if part in w.files then Enter(w.(files := Move(w.files, part, target)), Publishing(i, StageSignature))
             else Enter(w, Failed)
       case StageSignature =>
         if plan.signature.Some?
         then Enter(w.(files := w.files[part := plan.signature.value]), Publishing(i, PlaceSignature))
         else Enter(w.(files := Remove(w.files, target)), Publishing(i, StageIndex))
       case PlaceSignature =>
         if part in w.files then Enter(w.(files := Move(w.files, part, target)), Publishing(i, StageIndex))
             else Enter(w, Failed)
       case StageIndex =>
         Enter(w.(files := w.files[part := plan.index]), Publishing(i, PlaceIndex))
       case PlaceIndex =>
         if part in w.files then
           var authors := w.authors[plan.repo := (w.run.source, w.files[part])];
           var placed := w.(files := Move(w.files, part, target), authors := authors);
           Enter(placed, if i + 1 < |w.run.plans| then Publishing(i + 1, StageMarker) else Done)
         else Enter(w, Failed))
    case _ => w
  }

  predicate Selectable(selected: seq<string>) {
    selected != [] && (forall r | r in selected :: RepoOk(r))
    && forall i, j | 0 <= i < j < |selected| :: selected[i] != selected[j]
  }

  ghost function Apply(env: Env, w: World, a: Action): World {
    if a.Start? then
      if Selectable(a.selected)
      then World(w.files, Run(a.source, a.selected, a.optional, Guarding, [], map[], w.files, None), w.authors)
      else w
    else match w.run.phase
      case Guarding =>
        if a.Guard? then
          if forall r | r in w.run.selected :: GuardOk(env, w.files, w.run.source, r)
          then Enter(w, Planning(0))
          else Enter(w, Failed)
        else w
      case Planning(next) =>
        if next < |w.run.selected| then PlanningStep(env, w, next, w.run.selected[next], a)
        else if a.Check? then
          if ChecksPass(w, a.free)
          then Enter(w.(run := w.run.(jobs := Jobs(Unique(AllPackages(w.run.plans))), before := w.files)), Downloading)
          else Enter(w, Failed)
        else w
      case Downloading => Download(env, w, a)
      case Publishing(i, step) => if i < |w.run.plans| then PublishStepOf(env, w, i, step, a) else w
      case Done => w
      case Failed => w
  }

  ghost function Exec(env: Env, w: World, actions: seq<Action>): World
    decreases |actions|
  {
    if actions == [] then w else Exec(env, Apply(env, w, actions[0]), actions[1..])
  }

  /** A channel directory before any run: nothing selected, no index of ours. */
  function Fresh(files: Files): World {
    World(files, Run("", [], {}, Done, [], map[], files, None), map[])
  }

  // ---------------------------------------------------------------- paths never collide

  lemma SamePath(a: Path, x: string, b: Path, y: string)
    requires a + [x] == b + [y]
    ensures a == b && x == y
  {
    assert (a + [x])[|a|] == x && (b + [y])[|b|] == y;
    assert (a + [x])[..|a|] == a && (b + [y])[..|b|] == b;
  }

  lemma SameRepo(q: string, r: string)
    requires Split(q) == Split(r)
    ensures q == r
  {
    JoinSplit(q);
    JoinSplit(r);
  }

  lemma StagingEnds(p: Path)
    requires p != []
    ensures Staging(p) != [] && EndsWith(Last(Staging(p)), PART)
  {
  }

  lemma StagingInjective(p: Path, q: Path)
    requires p != [] && q != [] && Staging(p) == Staging(q)
    ensures p == q
  {
    SamePath(Front(p), Last(p) + PART, Front(q), Last(q) + PART);
    assert (Last(p) + PART)[..|Last(p)|] == Last(p) && (Last(q) + PART)[..|Last(q)|] == Last(q);
    assert p == Front(p) + [Last(p)] && q == Front(q) + [Last(q)];
  }

  lemma SuffixesApart(s: string)
    ensures !(EndsWith(s, RPM) && EndsWith(s, PART))
  {
    if EndsWith(s, RPM) {
      assert s[|s| - 4..][3] == 'm';
      assert |s| >= 5 ==> s[|s| - 5..][4] == 'm';
    }
  }

  predicate PackageName(p: Path) {
    p != [] && EndsWith(Last(p), RPM)
  }

  /** Package files, and the files they are staged in, never coincide. */
  lemma PackagesApart(d: Path, e: Path)
    requires PackageName(d) && PackageName(e)
    ensures d != Staging(e)
    ensures d != e ==> Staging(d) != Staging(e)
  {
    StagingEnds(e);
    SuffixesApart(Last(d));
    if d != e && Staging(d) == Staging(e) {
      StagingInjective(d, e);
    }
  }

  /** The files whose presence and content decide who owns a repository and what a
      client reads first. */
  function Control(repo: string): set<Path> {
    {MarkerPath(repo), LatestPath(repo), IndexPath(repo), SignaturePath(repo)}
  }

  lemma ControlNames(repo: string, p: Path)
    requires p in Control(repo)
    ensures p != [] && Last(p) in {MARKER, LATEST, REPOMD, SIGNATURE}
    ensures !EndsWith(Last(p), RPM) && !EndsWith(Last(p), PART)
  {
  }

  /** No worker ever touches a control file. */
  lemma ControlIsNotPackage(repo: string, p: Path, d: Path)
    requires p in Control(repo) && PackageName(d)
    ensures p != d && p != Staging(d)
  {
    ControlNames(repo, p);
    StagingEnds(d);
  }

  /** Staging files are never control files. */
  lemma ControlIsNotStaging(repo: string, p: Path, q: Path)
    requires p in Control(repo) && q != []
    ensures p != Staging(q)
  {
    ControlNames(repo, p);
    StagingEnds(q);
  }

  /** The repository is what is, on disk, another repository's `repodata` directory. */
  predicate NestedInRepodata(repo: string) {
    |Split(repo)| >= 2 && Last(Split(repo)) == REPODATA
  }

  /** Exactly when an accepted metadata file of one repository is a control file of
      another: the other is the first one's own `repodata` directory. */
  lemma MetadataHitsControlExact(q: string, href: string, r: string)
    requires RepoOk(q) && RepoOk(r) && ConfineMetadata(href).Ok?
    ensures var name := ConfineMetadata(href).value;
            MetaPath(q, name) in Control(r) <==> Split(r) == Split(q) + [REPODATA] && name in {MARKER, LATEST}
  {
    var name := ConfineMetadata(href).value;
    ConfineMetadataExact(href, name);
    var m := MetaPath(q, name);
    assert m == (Split(q) + [REPODATA]) + [name];
    if m == MarkerPath(r) { SamePath(Split(q) + [REPODATA], name, Split(r), MARKER); }
    if m == LatestPath(r) { SamePath(Split(q) + [REPODATA], name, Split(r), LATEST); }
    if m == IndexPath(r) { SamePath(Split(q) + [REPODATA], name, Split(r) + [REPODATA], REPOMD); }
    if m == SignaturePath(r) { SamePath(Split(q) + [REPODATA], name, Split(r) + [REPODATA], SIGNATURE); }
  }

  /** It can happen, below every repository: the nested path and the href are both
      accepted, and the file is the nested repository's marker (or pointer). */
  lemma MetadataCanHitControl(q: string, name: string)
    requires RepoOk(q) && name in {MARKER, LATEST}
    ensures var r := q + "/" + REPODATA;
            && RepoOk(r) && NestedInRepodata(r)
            && ConfineMetadata(REPODATA + "/" + name) == Ok(name) && MetaPath(q, name) in Control(r)
  {
    var r := q + "/" + REPODATA;
    NestedRepoOk(q);
    ControlHref(name);
    MetadataHitsControlExact(q, REPODATA + "/" + name, r);
  }

  lemma NestedRepoOk(q: string)
    requires RepoOk(q)
    ensures var r := q + "/" + REPODATA; RepoOk(r) && Split(r) == Split(q) + [REPODATA] && NestedInRepodata(r)
  {
    var r := q + "/" + REPODATA;
    RepoSegments(q);
    SplitPlain(REPODATA);
    SplitAround(q, REPODATA);
    NestedSegments(q, r);
    ValidateRepoPathExact(r);
  }

  lemma NestedSegments(q: string, r: string)
    requires RepoOk(q) && r == q + "/" + REPODATA && Split(r) == Split(q) + [REPODATA]
    ensures !NulOrBackslash(r) && Split(r)[0] == Split(q)[0] && Last(Split(r)) == REPODATA && r != "" && r[0] == q[0]
  {
  }

  lemma ControlHref(name: string)
    requires name in {MARKER, LATEST}
    ensures ConfineMetadata(REPODATA + "/" + name) == Ok(name)
  {
    ControlNamePlain(name);
    assert !NulOrBackslash(REPODATA + "/" + name);
    ConfineMetadataExact(REPODATA + "/" + name, name);
  }

  lemma ControlNamePlain(name: string)
    requires name in {MARKER, LATEST}
    ensures IsName(name) && SLASH !in name && !NulOrBackslash(name)
    ensures !EndsWith(name, PART) && name !in {REPOMD, SIGNATURE, KEY}
  {
    assert |MARKER| == 18 && |LATEST| == 21;
    assert name[|name| - 5..] == ".json";
    assert ".json"[4] == 'n' && ".part"[4] == 't';
  }

  lemma MetadataMissesControl(q: string, href: string, r: string, p: Path)
    requires RepoOk(q) && RepoOk(r) && ConfineMetadata(href).Ok? && p in Control(r)
    requires !NestedInRepodata(r) || p in {IndexPath(r), SignaturePath(r)}
    ensures p != MetaPath(q, ConfineMetadata(href).value) && p != Staging(MetaPath(q, ConfineMetadata(href).value))
  {
    var name := ConfineMetadata(href).value;
    ControlIsNotStaging(r, p, MetaPath(q, name));
    ConfineMetadataExact(href, name);
    assert Last(MetaPath(q, name)) == name;
    MetadataHitsControlExact(q, href, r);
    assert Last(Split(q) + [REPODATA]) == REPODATA;
  }

  /** Different repositories publish to different files. */
  lemma TargetsApart(q: string, step: PublishStep, r: string, p: Path)
    requires p in Control(r)
    ensures p != Staging(Target(q, step))
    ensures p == Target(q, step) ==> q == r
  {
    var t := Target(q, step);
    ControlIsNotStaging(r, p, t);
    if p == t {
      ControlLasts(q);
      ControlLasts(r);
      if t == MarkerPath(q) {
        SamePath(Split(q), MARKER, Split(r), MARKER);
        SameRepo(q, r);
      } else if t == IndexPath(q) {
        SameIndexed(q, r, REPOMD);
      } else {
        SameIndexed(q, r, SIGNATURE);
      }
    }
  }

  lemma ControlLasts(repo: string)
    ensures Last(MarkerPath(repo)) == MARKER && Last(LatestPath(repo)) == LATEST
    ensures Last(IndexPath(repo)) == REPOMD && Last(SignaturePath(repo)) == SIGNATURE
    ensures |MARKER| == 18 && |LATEST| == 21 && |REPOMD| == 10 && |SIGNATURE| == 14
  {
  }

  lemma SameIndexed(q: string, r: string, name: string)
    requires MetaPath(q, name) == MetaPath(r, name)
    ensures q == r
  {
    SamePath(Split(q) + [REPODATA], name, Split(r) + [REPODATA], name);
    SamePath(Split(q), REPODATA, Split(r), REPODATA);
    SameRepo(q, r);
  }
}
