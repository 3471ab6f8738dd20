/** Two promises of the mirror that hold of every repository but those nested in another
    one's `repodata` directory, and fail for every one of those. */
module MirrorNested {
  import opened Base
  import opened Segments
  import opened MirrorPaths
  import opened MirrorPlan
  import opened MirrorRun
  import opened MirrorSafety
  import opened MirrorOwnership
  import opened MirrorProgress

  lemma {:induction false} JoinSnoc(p: Path, x: string)
    requires p != []
    ensures Join(p + [x]) == Join(p) + "/" + x
    decreases |p|
  {
    if |p| == 1 {
      assert (p + [x])[1..] == [x];
    } else {
      JoinSnoc(p[1..], x);
      assert (p + [x])[1..] == p[1..] + [x];
      assert p[0] + [SLASH] + (Join(p[1..]) + "/" + x) == p[0] + [SLASH] + Join(p[1..]) + "/" + x;
    }
  }

  /** The repository around a nested one. */
  function Outer(repo: string): string {
    Join(Front(Split(repo)))
  }

  lemma OuterExact(r: string)
    requires RepoOk(r) && NestedInRepodata(r)
    ensures r == Outer(r) + "/" + REPODATA && Split(r) == Split(Outer(r)) + [REPODATA] && RepoOk(Outer(r))
  {
    var q, front := Outer(r), Front(Split(r));
    assert Split(r) == front + [REPODATA];
    JoinSplit(r);
    JoinSnoc(front, REPODATA);
    SplitPlain(REPODATA);
    SplitAround(q, REPODATA);
    assert q + [SLASH] + REPODATA == r;
    assert Split(q) == Split(r)[..|Split(q)|];
    ValidateRepoPathExact(r);
    forall c | c in q ensures c in r {
    }
    forall k | 0 <= k < |Split(q)| ensures IsName(Split(q)[k]) {
      assert Split(q)[k] == Split(r)[k];
    }
    ValidateRepoPathExact(q);
  }

  // ---------------------------------------------------------- overwriting a nested marker

  lemma BeginRun(env: Env, w: World, source: string, q: string)
    requires RepoOk(q) && GuardOk(env, w.files, source, q)
    ensures Exec(env, w, [Start(source, [q], {}), Guard]) ==
            World(w.files, Run(source, [q], {}, Planning(0), [], map[], w.files, None), w.authors)
  {
    ExecTwo(env, w, Start(source, [q], {}), Guard);
    assert Selectable([q]);
  }

  /** An index that names one metadata file, which is its listing of packages and for which
      `body` is what it declares. */
  ghost predicate NamesOne(env: Env, index: Bytes, href: string, body: Bytes) {
    && env.entriesOf(index).Some? && |env.entriesOf(index).value| == 1
    && var e := env.entriesOf(index).value[0]; e.primary && e.href == href && Accepts(env, e, body)
  }

  /** A run of one repository up to where its one metadata file is in place. */
  lemma OneMetaRun(env: Env, w: World, q: string, source: string, index: Bytes, href: string, body: Bytes)
    returns (actions: seq<Action>, w': World)
    requires RepoOk(q) && GuardOk(env, w.files, source, q)
    requires NamesOne(env, index, href, body) && ConfineMetadata(href).Ok?
    ensures w' == Exec(env, w, actions) && w'.authors == w.authors
    ensures var fetching := Some(Index(index, env.entriesOf(index).value, 1));
            w'.run == Run(source, [q], {}, Planning(0), [], map[], w.files, fetching)
    ensures var p := MetaPath(q, ConfineMetadata(href).value);
            && p in w'.files && w'.files[p] == body
            && forall x | x != p && x != Staging(p) :: Same(w.files, w'.files, x)
  {
    var begin := [Start(source, [q], {}), Guard];
    BeginRun(env, w, source, q);
    var planning := Exec(env, w, begin);
    var fetched := Apply(env, planning, FetchIndex(index));
    MetaIsPlaced(env, fetched, 0, ConfineMetadata(href).value, body);
    w' := WithMeta(env, fetched, body);
    ExecTwo(env, fetched, StageMeta(body), PlaceMeta);
    ExecCons(env, planning, FetchIndex(index), [StageMeta(body), PlaceMeta]);
    ExecAppend(env, w, begin, [FetchIndex(index)] + [StageMeta(body), PlaceMeta]);
    actions := begin + ([FetchIndex(index)] + [StageMeta(body), PlaceMeta]);
  }

  // ------------------------------------------------------------------ a nested publication

  /** A run of one repository whose index lists no package, up to its first publish step. */
  lemma EmptyRun(env: Env, r: string, source: string, index: Bytes, href: string, body: Bytes)
    returns (actions: seq<Action>, w: World)
    requires RepoOk(r) && NamesOne(env, index, href, body) && ConfineMetadata(href).Ok?
    ensures w == Exec(env, Fresh(map[]), actions)
    ensures w.run.phase == Publishing(0, StageMarker) && w.run.plans == [Plan(r, index, None, [])]
    ensures w.run.source == source && w.authors == map[]
    ensures var p := MetaPath(r, ConfineMetadata(href).value);
            forall x | x in w.files :: x == p || x == Staging(p)
  {
    var first, w0 := OneMetaRun(env, Fresh(map[]), r, source, index, href, body);
    forall x | x in w0.files
      ensures x == MetaPath(r, ConfineMetadata(href).value) || x == Staging(MetaPath(r, ConfineMetadata(href).value))
    {
      var p := MetaPath(r, ConfineMetadata(href).value);
      assert x != p && x != Staging(p) ==> Same(Fresh(map[]).files, w0.files, x);
    }
    var plan := PlanRepo(None, []);
    var w1 := Apply(env, w0, plan);
    assert env.entriesOf(index).value[0] in env.entriesOf(index).value;
    assert w1.run.plans == [Plan(r, index, None, [])];
    NothingToCheck(w1, r, index);
    var w2 := Apply(env, w1, Check(0));
    w := Apply(env, w2, JoinWorkers);
    ExecTwo(env, w0, plan, Check(0));
    ExecAppend(env, Fresh(map[]), first, [plan, Check(0)]);
    assert [JoinWorkers][1..] == [] && Exec(env, w2, [JoinWorkers]) == w;
    ExecAppend(env, Fresh(map[]), first + [plan, Check(0)], [JoinWorkers]);
    actions := first + [plan, Check(0)] + [JoinWorkers];
  }

  lemma NothingToCheck(w: World, r: string, index: Bytes)
    requires w.run.plans == [Plan(r, index, None, [])]
    ensures AllPackages(w.run.plans) == [] && Unique([]) == [] && ChecksPass(w, 0)
  {
    assert w.run.plans[..0] == [];
    assert AllPackages([]) == [];
  }

  /** Publishing leaves the control files of every repository it has no plan for. */
  lemma {:induction false} PublishingSpares(env: Env, w: World, actions: seq<Action>, q: string, p: Path)
    requires NoStart(actions) && p in Control(q) && forall plan | plan in w.run.plans :: plan.repo != q
    requires w.run.phase.Done? || w.run.phase.Failed? || w.run.phase.Publishing?
    ensures Same(w.files, Exec(env, w, actions).files, p)
    decreases |actions|
  {
    if actions != [] {
      var a := actions[0];
      var w' := Apply(env, w, a);
      assert a in actions && !a.Start?;
      if w.run.phase.Publishing? && w.run.phase.plan < |w.run.plans| {
        PublishRun(env, w, w.run.phase.plan, w.run.phase.step, a);
        PublishElsewhere(env, w, w.run.phase.plan, w.run.phase.step, a, w', q, p);
      }
      PublishingSpares(env, w', actions[1..], q, p);
    }
  }

  /** Everything `NestedLosesMarker` needs the source to serve: an index for the nested
      repository, one for the outer repository that names the nested marker, marker bytes
      that name the source, and other bytes. */
  datatype Offer = Offer(index: Bytes, href: string, primary: Bytes, outer: Bytes, marker: Bytes, other: Bytes)

  ghost predicate Offered(env: Env, r: string, source: string, o: Offer) {
    && NamesOne(env, o.index, o.href, o.primary) && ConfineMetadata(o.href).Ok?
    && NamesOne(env, o.outer, REPODATA + "/" + MARKER, o.other)
    && env.sourceOf(o.marker) == Some(SourceName(source, r)) && env.sourceOf(o.other) != Some(SourceName(source, r))
  }

  /** Both in a row: the nested repository is published with its marker, and then a run of
      the outer one puts another file in the marker's place. */
  lemma NestedLosesMarker(env: Env, r: string, source: string, o: Offer) returns (history: seq<Action>)
    requires RepoOk(r) && NestedInRepodata(r) && Offered(env, r, source, o)
    ensures var w := Exec(env, Fresh(map[]), history);
            r in w.authors && !Owned(env, w.files, r, w.authors[r])
  {
    var q := Outer(r);
    OuterExact(r);
    ControlHref(MARKER);
    var first, w1 := EmptyRun(env, r, source, o.index, o.href, o.primary);
    var second := PublishOne(env, w1, 0, o.marker);
    var w2 := Exec(env, w1, second);
    OuterIsFresh(env, r, o.href, source, w1.files);
    PublishingSpares(env, w1, second, q, IndexPath(q));
    PublishingSpares(env, w1, second, q, LatestPath(q));
    var third, w3 := OneMetaRun(env, w2, q, source, o.outer, REPODATA + "/" + MARKER, o.other);
    assert MetaPath(q, MARKER) == MarkerPath(r);
    ExecAppend(env, Fresh(map[]), first, second);
    ExecAppend(env, Fresh(map[]), first + second, third);
    history := first + second + third;
  }

  /** A metadata file of the nested repository is no control file of the outer one. */
  lemma OuterIsFresh(env: Env, r: string, href: string, source: string, files: Files)
    requires RepoOk(r) && NestedInRepodata(r) && ConfineMetadata(href).Ok?
    requires var p := MetaPath(r, ConfineMetadata(href).value); forall x | x in files :: x == p || x == Staging(p)
    ensures IndexPath(Outer(r)) !in files && LatestPath(Outer(r)) !in files
  {
    var q, p := Outer(r), MetaPath(r, ConfineMetadata(href).value);
    OuterExact(r);
    MetadataHitsControlExact(r, href, q);
    ControlIsNotStaging(q, IndexPath(q), p);
    ControlIsNotStaging(q, LatestPath(q), p);
  }

  // ---------------------------------------------------------------------- exactly when

  ghost predicate AlwaysOwned(env: Env, r: string) {
    forall files, history ::
      var w := Exec(env, Fresh(files), history);
      r in w.authors ==> Owned(env, w.files, r, w.authors[r])
  }

  /** A published index keeps its marker through every history of runs if and only if its
      repository is not nested in another one's `repodata`; all that is asked of the formats
      is that they can say what a source of that sort would serve. */
  lemma MarkerIsKeptExact(env: Env, r: string, source: string, o: Offer)
    requires RepoOk(r) && Offered(env, r, source, o)
    ensures AlwaysOwned(env, r) <==> !NestedInRepodata(r)
  {
    if NestedInRepodata(r) {
      var history := NestedLosesMarker(env, r, source, o);
      var w := Exec(env, Fresh(map[]), history);
      assert r in w.authors && !Owned(env, w.files, r, w.authors[r]);
    } else {
      forall files, history | r in Exec(env, Fresh(files), history).authors
        ensures var w := Exec(env, Fresh(files), history); Owned(env, w.files, r, w.authors[r])
      {
        PublishedIndexKeepsItsMarker(env, files, history, r, source);
      }
    }
  }

  ghost predicate ForeignSpared(env: Env, files: Files, r: string) {
    forall history, p | p in Control(r) :: Same(files, Exec(env, Fresh(files), history).files, p)
  }

  /** Local content that no mirror made keeps its index, signature, marker and pointer
      through every history of runs, wherever it is, if and only if its repository is not
      nested in another one's `repodata`. */
  lemma ForeignIsSparedExact(env: Env, r: string, index: Bytes, body: Bytes)
    requires RepoOk(r) && NamesOne(env, index, REPODATA + "/" + MARKER, body)
    ensures (forall files | Foreign(files, r) :: ForeignSpared(env, files, r)) <==> !NestedInRepodata(r)
  {
    if NestedInRepodata(r) {
      NestedForeignIsWritten(env, r, index, body);
    } else {
      forall files | Foreign(files, r) ensures ForeignSpared(env, files, r) {
        forall history, p | p in Control(r) ensures Same(files, Exec(env, Fresh(files), history).files, p) {
          ForeignRepositoryIsNeverWritten(env, files, history, r);
        }
      }
    }
  }

  lemma NestedForeignIsWritten(env: Env, r: string, index: Bytes, body: Bytes)
    requires RepoOk(r) && NestedInRepodata(r) && NamesOne(env, index, REPODATA + "/" + MARKER, body)
    ensures exists files :: Foreign(files, r) && !ForeignSpared(env, files, r)
  {
    var q := Outer(r);
    OuterExact(r);
    var files: Files := map[IndexPath(r) := []];
    ControlApart(r);
    ControlLasts(q);
    ControlLasts(r);
    if IndexPath(q) == IndexPath(r) {
      SameIndexed(q, r, REPOMD);
    }
    ControlHref(MARKER);
    var history, w := OneMetaRun(env, Fresh(files), q, "", index, REPODATA + "/" + MARKER, body);
    assert MetaPath(q, MARKER) == MarkerPath(r);
    assert MarkerPath(r) in Control(r) && !Same(files, Exec(env, Fresh(files), history).files, MarkerPath(r));
    assert Foreign(files, r) && !ForeignSpared(env, files, r);
  }
}
