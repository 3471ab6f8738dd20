/** The other side of safety: a mirror run can complete. Once the checks have passed, bytes
    that match the listing are enough to carry a run to the end from any state at all, unless
    a worker of it has already spent its last attempt. */
module MirrorProgress {
  import opened Base
  import opened Segments
  import opened MirrorPaths
  import opened MirrorPlan
  import opened MirrorRun
  import opened MirrorSafety

  lemma ExecCons(env: Env, w: World, a: Action, rest: seq<Action>)
    ensures Exec(env, w, [a] + rest) == Exec(env, Apply(env, w, a), rest)
  {
    assert ([a] + rest)[1..] == rest;
  }

  lemma Consed(first: seq<Action>, second: seq<Action>)
    requires first != []
    ensures first == [first[0]] + first[1..] && first + second == [first[0]] + (first[1..] + second)
  {
  }

  lemma {:induction false} ExecAppend(env: Env, w: World, first: seq<Action>, second: seq<Action>)
    ensures Exec(env, w, first + second) == Exec(env, Exec(env, w, first), second)
    decreases |first|
  {
    if first == [] {
      assert first + second == second;
    } else {
      Consed(first, second);
      ExecCons(env, w, first[0], first[1..]);
      ExecCons(env, w, first[0], first[1..] + second);
      ExecAppend(env, Apply(env, w, first[0]), first[1..], second);
    }
  }

  /** Bytes for every package that the source could serve: not longer than declared, and
      with the declared digest. */
  ghost predicate Served(env: Env, p: Package, body: Bytes) {
    |body| <= p.size && env.digest(p.ctype, body) == p.checksum
  }

  // ----------------------------------------------------------------- one worker to the end

  function WorkerRun(env: Env, files: Files, p: Package, worker: Worker, events: seq<WorkEvent>): (Files, Worker)
    requires p.dest != []
    decreases |events|
  {
    if events == [] then (files, worker)
    else
      var (files', worker') := WorkerStep(env, files, p, worker, events[0]);
      WorkerRun(env, files', p, worker', events[1..])
  }

  lemma WorkerRunStep(env: Env, files: Files, p: Package, worker: Worker, e: WorkEvent, rest: seq<WorkEvent>)
    requires p.dest != []
    ensures var (files', worker') := WorkerStep(env, files, p, worker, e);
            WorkerRun(env, files, p, worker, [e] + rest) == WorkerRun(env, files', p, worker', rest)
  {
    assert ([e] + rest)[1..] == rest;
  }

  /** The staged body is the declared one. */
  predicate Matching(env: Env, files: Files, p: Package)
    requires p.dest != []
  {
    Staging(p.dest) in files && env.digest(p.ctype, files[Staging(p.dest)]) == p.checksum
  }

  /** A worker past saving: given up, or about to verify the wrong bytes of its last attempt. */
  predicate Doomed(env: Env, files: Files, p: Package, worker: Worker)
    requires p.dest != []
  {
    worker.Aborted? || (worker.Fetched? && worker.attempt + 1 >= ATTEMPTS && !Matching(env, files, p))
  }

  function FetchScript(body: Bytes): seq<WorkEvent> {
    [Receive(body)] + ([EndOfBody] + ([Verify] + ([Place] + [])))
  }

  /** What a worker has left to do when nothing disturbs it. */
  function Remaining(env: Env, files: Files, p: Package, worker: Worker, body: Bytes): seq<WorkEvent>
    requires p.dest != []
  {
    match worker
    case Queued => [Stat] + ([Hash] + FetchScript(body))
    case Hashing => [Hash] + FetchScript(body)
    case Fetching(_) => FetchScript(body)
    case Fetched(_) => [Verify] + if Matching(env, files, p) then [Place] + [] else FetchScript(body)
    case Verified(_, _) => [Place] + []
    case Finished(_) => []
    case Aborted => []
  }

  lemma FetchFinishes(env: Env, files: Files, p: Package, worker: Worker, body: Bytes)
    requires p.dest != [] && worker.Fetching? && Served(env, p, body)
    ensures WorkerRun(env, files, p, worker, FetchScript(body)).1.Finished?
  {
    var (f1, w1) := WorkerStep(env, files, p, worker, Receive(body));
    var (f2, w2) := WorkerStep(env, f1, p, w1, EndOfBody);
    var (f3, w3) := WorkerStep(env, f2, p, w2, Verify);
    var (f4, w4) := WorkerStep(env, f3, p, w3, Place);
    assert w4.Finished?;
    WorkerRunStep(env, files, p, worker, Receive(body), [EndOfBody] + ([Verify] + ([Place] + [])));
    WorkerRunStep(env, f1, p, w1, EndOfBody, [Verify] + ([Place] + []));
    WorkerRunStep(env, f2, p, w2, Verify, [Place] + []);
    WorkerRunStep(env, f3, p, w3, Place, []);
  }

  lemma {:induction false} FinishedStays(env: Env, files: Files, p: Package, worker: Worker, events: seq<WorkEvent>)
    requires p.dest != [] && worker.Finished?
    ensures WorkerRun(env, files, p, worker, events) == (files, worker)
    decreases |events|
  {
    if events != [] {
      FinishedStays(env, files, p, worker, events[1..]);
    }
  }

  lemma HashFinishes(env: Env, files: Files, p: Package, worker: Worker, body: Bytes)
    requires p.dest != [] && (worker.Hashing? || worker.Fetching?) && Served(env, p, body)
    ensures WorkerRun(env, files, p, worker, [Hash] + FetchScript(body)).1.Finished?
  {
    var (f1, w1) := WorkerStep(env, files, p, worker, Hash);
    WorkerRunStep(env, files, p, worker, Hash, FetchScript(body));
    if w1.Finished? {
      FinishedStays(env, f1, p, w1, FetchScript(body));
    } else {
      FetchFinishes(env, f1, p, w1, body);
    }
  }

  lemma VerifyFinishes(env: Env, files: Files, p: Package, worker: Worker, body: Bytes)
    requires p.dest != [] && worker.Fetched? && !Doomed(env, files, p, worker) && Served(env, p, body)
    ensures WorkerRun(env, files, p, worker, Remaining(env, files, p, worker, body)).1.Finished?
  {
    var (f1, w1) := WorkerStep(env, files, p, worker, Verify);
    if Matching(env, files, p) {
      WorkerRunStep(env, files, p, worker, Verify, [Place] + []);
      WorkerRunStep(env, f1, p, w1, Place, []);
    } else {
      WorkerRunStep(env, files, p, worker, Verify, FetchScript(body));
      FetchFinishes(env, f1, p, w1, body);
    }
  }

  /** Whatever is on disk and wherever it has got to, an undisturbed worker that is not past
      saving finishes. */
  lemma WorkerFinishes(env: Env, files: Files, p: Package, worker: Worker, body: Bytes)
    requires JobOk(env, files, p, worker) && !Doomed(env, files, p, worker) && Served(env, p, body)
    ensures WorkerRun(env, files, p, worker, Remaining(env, files, p, worker, body)).1.Finished?
  {
    match worker
    case Queued =>
      var (f1, w1) := WorkerStep(env, files, p, worker, Stat);
      WorkerRunStep(env, files, p, worker, Stat, [Hash] + FetchScript(body));
      HashFinishes(env, f1, p, w1, body);
    case Hashing => HashFinishes(env, files, p, worker, body);
    case Fetching(_) => FetchFinishes(env, files, p, worker, body);
    case Fetched(_) => VerifyFinishes(env, files, p, worker, body);
    case Verified(_, _) => WorkerRunStep(env, files, p, worker, Place, []);
    case _ =>
  }

  lemma {:induction false} WorkerRunFrame(env: Env, files: Files, p: Package, worker: Worker, events: seq<WorkEvent>,
          q: Path)
    requires p.dest != [] && q != p.dest && q != Staging(p.dest)
    ensures Same(files, WorkerRun(env, files, p, worker, events).0, q)
    decreases |events|
  {
    if events != [] {
      var (files', worker') := WorkerStep(env, files, p, worker, events[0]);
      WorkerRunFrame(env, files', p, worker', events[1..], q);
    }
  }

  function At(d: Path, events: seq<WorkEvent>): seq<Action> {
    seq(|events|, i requires 0 <= i < |events| => Work(d, events[i]))
  }

  /** A worker's events as steps of the run: only its own job and its files move. */
  lemma {:induction false} WorkerInRun(env: Env, w: World, d: Path, events: seq<WorkEvent>)
    requires w.run.phase.Downloading? && d in w.run.jobs && d != [] && w.run.jobs[d].package.dest == d
    ensures var job := w.run.jobs[d];
            var (files, worker) := WorkerRun(env, w.files, job.package, job.worker, events);
            var jobs := w.run.jobs[d := Job(job.package, worker)];
            Exec(env, w, At(d, events)) == World(files, w.run.(jobs := jobs), w.authors)
    decreases |events|
  {
    var job := w.run.jobs[d];
    if events == [] {
      assert w.run.jobs[d := Job(job.package, job.worker)] == w.run.jobs;
    } else {
      var a := Work(d, events[0]);
      var next := Apply(env, w, a);
      WorkerInRun(env, next, d, events[1..]);
      assert At(d, events)[0] == a && At(d, events)[1..] == At(d, events[1..]);
      var (files, worker) := WorkerStep(env, w.files, job.package, job.worker, events[0]);
      assert next.run.jobs == w.run.jobs[d := Job(job.package, worker)];
      var (_, last) := WorkerRun(env, files, job.package, worker, events[1..]);
      assert next.run.jobs[d := Job(job.package, last)] == w.run.jobs[d := Job(job.package, last)];
    }
  }

  // ------------------------------------------------------------------ all workers to the end

  /** Downloading, with no worker past saving. */
  ghost predicate Ready(env: Env, w: World) {
    && Inv(env, w) && w.run.phase.Downloading?
    && forall d | d in w.run.jobs :: !Doomed(env, w.files, w.run.jobs[d].package, w.run.jobs[d].worker)
  }

  function Unfinished(jobs: map<Path, Job>): set<Path> {
    set d | d in jobs && !jobs[d].worker.Finished?
  }

  /** All that a phase leaves alone: everything but files and workers. */
  ghost predicate SamePlans(w: World, w': World) {
    && w'.run == w.run.(jobs := w'.run.jobs)
    && w'.authors == w.authors
    && w'.run.jobs.Keys == w.run.jobs.Keys
    && forall d | d in w.run.jobs :: w'.run.jobs[d].package == w.run.jobs[d].package
  }

  /** One worker is taken to its end; nothing else of the run changes. */
  lemma OneFinishes(env: Env, w: World, d: Path, body: Bytes) returns (actions: seq<Action>, w': World)
    requires Ready(env, w) && d in Unfinished(w.run.jobs) && Served(env, w.run.jobs[d].package, body)
    ensures w' == Exec(env, w, actions) && NoStart(actions)
    ensures Ready(env, w') && SamePlans(w, w') && Unfinished(w'.run.jobs) == Unfinished(w.run.jobs) - {d}
  {
    var p, worker := w.run.jobs[d].package, w.run.jobs[d].worker;
    var events := Remaining(env, w.files, p, worker, body);
    actions := At(d, events);
    WorkerFinishes(env, w.files, p, worker, body);
    WorkerInRun(env, w, d, events);
    var (files, last) := WorkerRun(env, w.files, p, worker, events);
    w' := World(files, w.run.(jobs := w.run.jobs[d := Job(p, last)]), w.authors);
    InvAlways(env, w, actions);
    OthersStayUndoomed(env, w, d, events, files, last);
    OneLessUnfinished(w.run.jobs, d, Job(p, last));
  }

  lemma OneLessUnfinished(jobs: map<Path, Job>, d: Path, done: Job)
    requires d in jobs && done.worker.Finished? && done.package == jobs[d].package
    ensures Unfinished(jobs[d := done]) == Unfinished(jobs) - {d} && jobs[d := done].Keys == jobs.Keys
  {
  }

  lemma OthersStayUndoomed(env: Env, w: World, d: Path, events: seq<WorkEvent>, files: Files, last: Worker)
    requires Ready(env, w) && d in w.run.jobs && last.Finished?
    requires w.run.jobs[d].package.dest == d != []
    requires files == WorkerRun(env, w.files, w.run.jobs[d].package, w.run.jobs[d].worker, events).0
    ensures var jobs := w.run.jobs[d := Job(w.run.jobs[d].package, last)];
            forall e | e in jobs :: jobs[e].package.dest != [] && !Doomed(env, files, jobs[e].package, jobs[e].worker)
  {
    forall e | e in w.run.jobs && e != d
      ensures w.run.jobs[e].package.dest != [] && !Doomed(env, files, w.run.jobs[e].package, w.run.jobs[e].worker)
    {
      PackagesApart(d, e);
      PackagesApart(e, d);
      WorkerRunFrame(env, w.files, w.run.jobs[d].package, w.run.jobs[d].worker, events, Staging(e));
    }
  }

  lemma {:induction false} WorkersFinish(env: Env, w: World, bodies: map<Path, Bytes>)
    returns (actions: seq<Action>, w': World)
    requires Ready(env, w)
    requires forall d | d in w.run.jobs :: d in bodies && Served(env, w.run.jobs[d].package, bodies[d])
    ensures w' == Exec(env, w, actions) && NoStart(actions)
    ensures AllFinished(w'.run.jobs) && w'.run.phase.Downloading? && SamePlans(w, w')
    decreases |Unfinished(w.run.jobs)|
  {
    if d :| d in Unfinished(w.run.jobs) {
      var first, next := OneFinishes(env, w, d, bodies[d]);
      var rest;
      rest, w' := WorkersFinish(env, next, bodies);
      ExecAppend(env, w, first, rest);
      actions := first + rest;
    } else {
      assert forall d | d in w.run.jobs :: d !in Unfinished(w.run.jobs);
      actions, w' := [], w;
    }
  }

  // ------------------------------------------------------------------------ publishing

  /** Marker bytes that name the run's source, for every planned repository. */
  ghost predicate Marks(env: Env, w: World, markers: seq<Bytes>) {
    |markers| == |w.run.plans| &&
    forall i | 0 <= i < |markers| :: env.sourceOf(markers[i]) == Some(SourceName(w.run.source, w.run.plans[i].repo))
  }

  /** Who published each plan's repository last, among the first `n` plans. */
  ghost predicate IndexesPublished(w: World, n: nat)
    requires n <= |w.run.plans|
  {
    forall j | 0 <= j < n && LastFor(w.run.plans, j, n) ::
      w.run.plans[j].repo in w.authors && w.authors[w.run.plans[j].repo] == (w.run.source, w.run.plans[j].index)
  }

  ghost predicate LastFor(plans: seq<Plan>, j: nat, n: nat)
    requires j < n <= |plans|
  {
    forall k | j < k < n :: plans[k].repo != plans[j].repo
  }

  ghost predicate AtStep(w: World, i: nat, step: PublishStep) {
    i < |w.run.plans| && w.run.phase == Publishing(i, step)
  }

  lemma ExecTwo(env: Env, w: World, a: Action, b: Action)
    ensures Exec(env, w, [a, b]) == Apply(env, Apply(env, w, a), b)
  {
    assert [a, b][1..] == [b] && [b][1..] == [];
    assert Exec(env, Apply(env, w, a), [b]) == Apply(env, Apply(env, w, a), b);
  }

  /** Marker, signature and index of one repository, staged and placed in that order. */
  lemma PublishOne(env: Env, w: World, i: nat, marker: Bytes) returns (actions: seq<Action>)
    requires AtStep(w, i, StageMarker)
    requires env.sourceOf(marker) == Some(SourceName(w.run.source, w.run.plans[i].repo))
    ensures NoStart(actions)
    ensures var w', plan := Exec(env, w, actions), w.run.plans[i];
            && w'.run == w.run.(phase := if i + 1 < |w.run.plans| then Publishing(i + 1, StageMarker) else Done)
            && w'.authors == w.authors[plan.repo := (w.run.source, plan.index)]
  {
    var a := Publish(marker);
    var w2 := MarkerSteps(env, w, i, marker);
    var signature, w3 := SignatureSteps(env, w2, i, a);
    var w4 := IndexSteps(env, w3, i, a);
    ExecAppend(env, w, [a, a], signature);
    ExecAppend(env, w, [a, a] + signature, [a, a]);
    actions := [a, a] + signature + [a, a];
  }

  lemma MarkerSteps(env: Env, w: World, i: nat, marker: Bytes) returns (w': World)
    requires AtStep(w, i, StageMarker)
    requires env.sourceOf(marker) == Some(SourceName(w.run.source, w.run.plans[i].repo))
    ensures w' == Exec(env, w, [Publish(marker), Publish(marker)])
    ensures w'.run == w.run.(phase := Publishing(i, StageSignature)) && w'.authors == w.authors
  {
    ExecTwo(env, w, Publish(marker), Publish(marker));
    w' := Apply(env, Apply(env, w, Publish(marker)), Publish(marker));
  }

  lemma SignatureSteps(env: Env, w: World, i: nat, a: Action) returns (actions: seq<Action>, w': World)
    requires AtStep(w, i, StageSignature) && a.Publish?
    ensures w' == Exec(env, w, actions) && NoStart(actions)
    ensures w'.run == w.run.(phase := Publishing(i, StageIndex)) && w'.authors == w.authors
  {
    if w.run.plans[i].signature.Some? {
      ExecTwo(env, w, a, a);
      return [a, a], Apply(env, Apply(env, w, a), a);
    } else {
      assert [a][1..] == [];
      return [a], Apply(env, w, a);
    }
  }

  lemma IndexSteps(env: Env, w: World, i: nat, a: Action) returns (w': World)
    requires AtStep(w, i, StageIndex) && a.Publish?
    ensures w' == Exec(env, w, [a, a])
    ensures w'.run == w.run.(phase := if i + 1 < |w.run.plans| then Publishing(i + 1, StageMarker) else Done)
    ensures w'.authors == w.authors[w.run.plans[i].repo := (w.run.source, w.run.plans[i].index)]
  {
    ExecTwo(env, w, a, a);
    w' := Apply(env, Apply(env, w, a), a);
  }

  lemma {:induction false} PublishRest(env: Env, w: World, i: nat, markers: seq<Bytes>) returns (actions: seq<Action>)
    requires AtStep(w, i, StageMarker) && Marks(env, w, markers) && IndexesPublished(w, i)
    ensures NoStart(actions)
    ensures var w' := Exec(env, w, actions);
            w'.run == w.run.(phase := Done) && IndexesPublished(w', |w'.run.plans|)
    decreases |w.run.plans| - i
  {
    var first := PublishOne(env, w, i, markers[i]);
    var next := Exec(env, w, first);
    PublishedMore(w, next, i);
    if i + 1 < |w.run.plans| {
      var rest := PublishRest(env, next, i + 1, markers);
      ExecAppend(env, w, first, rest);
      actions := first + rest;
    } else {
      actions := first;
    }
  }

  lemma PublishedMore(w: World, w': World, i: nat)
    requires i < |w.run.plans| && IndexesPublished(w, i)
    requires w'.run.plans == w.run.plans && w'.run.source == w.run.source
    requires w'.authors == w.authors[w.run.plans[i].repo := (w.run.source, w.run.plans[i].index)]
    ensures IndexesPublished(w', i + 1)
  {
    var plans := w.run.plans;
    forall j | 0 <= j < i + 1 && LastFor(plans, j, i + 1)
      ensures plans[j].repo in w'.authors && w'.authors[plans[j].repo] == (w.run.source, plans[j].index)
    {
      if j < i {
        assert plans[i].repo != plans[j].repo;
        assert LastFor(plans, j, i);
      }
    }
  }

  // ---------------------------------------------------------------------- the whole run

  /** From any state of the download phase with no worker past saving, if the source can
      serve every package, some sequence of steps without a new start ends the run with every
      planned index published. */
  lemma RunCanComplete(env: Env, w: World, bodies: map<Path, Bytes>, markers: seq<Bytes>) returns (actions: seq<Action>)
    requires Ready(env, w) && Marks(env, w, markers)
    requires forall d | d in w.run.jobs :: d in bodies && Served(env, w.run.jobs[d].package, bodies[d])
    ensures NoStart(actions)
    ensures var w' := Exec(env, w, actions);
            w'.run.phase.Done? && w'.run.plans == w.run.plans && w'.run.source == w.run.source
                && IndexesPublished(w', |w'.run.plans|)
  {
    var first, next := WorkersFinish(env, w, bodies);
    var joined := Apply(env, next, JoinWorkers);
    assert [JoinWorkers][1..] == [];
    assert Exec(env, next, [JoinWorkers]) == joined;
    ExecAppend(env, w, first, [JoinWorkers]);
    if w.run.plans == [] {
      actions := first + [JoinWorkers];
    } else {
      var rest := PublishRest(env, joined, 0, markers);
      ExecAppend(env, w, first + [JoinWorkers], rest);
      actions := first + [JoinWorkers] + rest;
    }
  }

  /** The run has failed, or has a worker past saving. */
  ghost predicate Lost(env: Env, w: World) {
    w.run.phase.Failed? ||
    (w.run.phase.Downloading? && exists d | d in w.run.jobs && w.run.jobs[d].package.dest != [] ::
      Doomed(env, w.files, w.run.jobs[d].package, w.run.jobs[d].worker))
  }

  lemma LostStep(env: Env, w: World, a: Action)
    requires Inv(env, w) && Lost(env, w) && !a.Start?
    ensures Lost(env, Apply(env, w, a))
  {
    if w.run.phase.Downloading? {
      var d :| d in w.run.jobs && w.run.jobs[d].package.dest != [] &&
               Doomed(env, w.files, w.run.jobs[d].package, w.run.jobs[d].worker);
      var w' := Download(env, w, a);
      if a.Work? && a.dest in w.run.jobs {
        DoomedStep(env, w, a.dest, a.event, d, w');
      }
    }
  }

  lemma DoomedStep(env: Env, w: World, e: Path, event: WorkEvent, d: Path, w': World)
    requires Inv(env, w) && w.run.phase.Downloading? && d in w.run.jobs && e in w.run.jobs
    requires Doomed(env, w.files, w.run.jobs[d].package, w.run.jobs[d].worker) && w' == Download(env, w, Work(e, event))
    ensures d in w'.run.jobs && w'.run.jobs[d].package == w.run.jobs[d].package
    ensures Doomed(env, w'.files, w'.run.jobs[d].package, w'.run.jobs[d].worker)
  {
    if e != d {
      PackagesApart(d, e);
      PackagesApart(e, d);
      WorkerStepOk(env, w.files, w.run.jobs[e].package, w.run.jobs[e].worker, event);
      assert Same(w.files, w'.files, Staging(d));
    }
  }

  lemma {:induction false} LostForever(env: Env, w: World, actions: seq<Action>)
    requires Inv(env, w) && Lost(env, w) && NoStart(actions)
    ensures Lost(env, Exec(env, w, actions))
    decreases |actions|
  {
    if actions != [] {
      assert actions[0] in actions;
      LostStep(env, w, actions[0]);
      ApplyKeeps(env, w, actions[0]);
      LostForever(env, Apply(env, w, actions[0]), actions[1..]);
    }
  }

  /** Exactly when a run whose checks have passed can still complete, whatever its workers
      are doing: when none of them is past saving. */
  lemma CompletableExact(env: Env, w: World, bodies: map<Path, Bytes>, markers: seq<Bytes>)
    requires Inv(env, w) && w.run.phase.Downloading? && Marks(env, w, markers)
    requires forall d | d in w.run.jobs :: d in bodies && Served(env, w.run.jobs[d].package, bodies[d])
    ensures (exists actions :: NoStart(actions) && Exec(env, w, actions).run.phase.Done?) <==>
            forall d | d in w.run.jobs :: !Doomed(env, w.files, w.run.jobs[d].package, w.run.jobs[d].worker)
  {
    if Ready(env, w) {
      var actions := RunCanComplete(env, w, bodies, markers);
    } else {
      assert Lost(env, w);
      forall actions | NoStart(actions) ensures !Exec(env, w, actions).run.phase.Done? {
        LostForever(env, w, actions);
      }
    }
  }
}
