/** The metadata files that the index of a repository names: what can be done to them, what a
    completed run leaves of them, and when those of every published index stay in place. */
module MirrorMetadata {
  import opened Base
  import opened Segments
  import opened MirrorPaths
  import opened MirrorPlan
  import opened MirrorRun
  import opened MirrorSafety
  import opened MirrorOwnership
  import opened MirrorProgress
  import opened MirrorListed

  predicate Plain(e: MetaEntry) {
    ConfineMetadata(e.href).Ok?
  }

  /** The file name of an accepted entry. */
  function NameOf(e: MetaEntry): string {
    if Plain(e) then ConfineMetadata(e.href).value else ""
  }

  function EntryPath(repo: string, e: MetaEntry): Path {
    MetaPath(repo, NameOf(e))
  }

  /** The file an entry names is in place, and is what the entry declares. */
  predicate Holds(env: Env, files: Files, repo: string, e: MetaEntry) {
    EntryPath(repo, e) in files && Accepts(env, e, files[EntryPath(repo, e)])
  }

  lemma MetaPathInjective(q: string, n: string, r: string, m: string)
    requires MetaPath(q, n) == MetaPath(r, m)
    ensures q == r && n == m
  {
    SamePath(Split(q) + [REPODATA], n, Split(r) + [REPODATA], m);
    SamePath(Split(q), REPODATA, Split(r), REPODATA);
    SameRepo(q, r);
  }

  lemma EntryNotStaging(q: string, e: MetaEntry, x: Path)
    requires Plain(e) && x != []
    ensures EntryPath(q, e) != Staging(x)
  {
    ConfineMetadataExact(e.href, NameOf(e));
    StagingEnds(x);
    assert Last(EntryPath(q, e)) == NameOf(e);
  }

  lemma EntryNotPublished(q: string, e: MetaEntry, r: string)
    requires Plain(e)
    ensures EntryPath(q, e) !in {IndexPath(r), SignaturePath(r)}
    ensures EntryPath(q, e) == MarkerPath(r) <==> Split(r) == Split(q) + [REPODATA] && NameOf(e) == MARKER
  {
    ConfineMetadataExact(e.href, NameOf(e));
    assert Last(EntryPath(q, e)) == NameOf(e) && Last(IndexPath(r)) == REPOMD && Last(SignaturePath(r)) == SIGNATURE;
    if EntryPath(q, e) == MarkerPath(r) {
      SamePath(Split(q) + [REPODATA], NameOf(e), Split(r), MARKER);
    }
  }

  lemma EntryNotPackage(q: string, e: MetaEntry, d: Path)
    requires Plain(e) && REPODATA !in d && d != []
    ensures EntryPath(q, e) != d && EntryPath(q, e) != Staging(d)
  {
    EntryNotStaging(q, e, d);
    var m := EntryPath(q, e);
    assert m[|m| - 2] == REPODATA;
  }

  // ------------------------------------------------------------------- one step, exactly

  /** A planning step of the repository puts other bytes under the entry's name. */
  ghost predicate Replaces(env: Env, w: World, a: Action, q: string, e: MetaEntry) {
    && w.run.phase.Planning? && w.run.phase.next < |w.run.selected| && w.run.selected[w.run.phase.next] == q
    && a.PlaceMeta? && w.run.Awaited().Some?
    && var f := w.run.Awaited().value;
       var part := Staging(EntryPath(q, f));
       Plain(f) && NameOf(f) == NameOf(e) && part in w.files && Accepts(env, f, w.files[part]) &&
       !Accepts(env, e, w.files[part])
  }

  /** A publish step of the repository nested in this one puts its marker there. */
  ghost predicate Remarks(env: Env, w: World, a: Action, q: string, e: MetaEntry) {
    && w.run.phase.Publishing? && w.run.phase.plan < |w.run.plans| && w.run.phase.step.PlaceMarker? && a.Publish?
    && var r := w.run.plans[w.run.phase.plan].repo;
       Split(r) == Split(q) + [REPODATA] && NameOf(e) == MARKER && Staging(MarkerPath(r)) in w.files &&
       !Accepts(env, e, w.files[Staging(MarkerPath(r))])
  }

  /** A metadata file is lost in one step exactly when its own repository's planning, or the
      publishing of the repository nested in it, puts other bytes in its place. */
  lemma MetaLostExact(env: Env, w: World, a: Action, q: string, e: MetaEntry)
    requires Inv(env, w) && Plain(e) && Holds(env, w.files, q, e)
    ensures !Holds(env, Apply(env, w, a).files, q, e) <==> Replaces(env, w, a, q, e) || Remarks(env, w, a, q, e)
  {
    if !a.Start? {
      match w.run.phase
      case Planning(next) => if next < |w.run.selected| { PlanningLostExact(env, w, next, a, q, e); }
      case Downloading => if a.Work? && a.dest in w.run.jobs { WorkMissesMeta(env, w, a, q, e); }
      case Publishing(i, step) => PublishLostExact(env, w, i, step, a, q, e);
      case _ =>
    }
  }

  lemma PlanningLostExact(env: Env, w: World, next: nat, a: Action, q: string, e: MetaEntry)
    requires w.run.phase == Planning(next) && next < |w.run.selected| && Plain(e) && Holds(env, w.files, q, e)
    ensures !Holds(env, PlanningStep(env, w, next, w.run.selected[next], a).files, q, e) <==>
            Replaces(env, w, a, q, e)
  {
    var r, x := w.run.selected[next], EntryPath(q, e);
    if w.run.Awaited().Some? && Plain(w.run.Awaited().value) {
      var f := w.run.Awaited().value;
      EntryNotStaging(q, e, EntryPath(r, f));
      if x == EntryPath(r, f) {
        MetaPathInjective(q, NameOf(e), r, NameOf(f));
        AwaitedLostExact(env, w, next, a, e);
      } else {
        PlanningFrame(env, w, next, a, x);
      }
    } else {
      PlanningFrame(env, w, next, a, x);
    }
  }

  lemma AwaitedLostExact(env: Env, w: World, next: nat, a: Action, e: MetaEntry)
    requires w.run.phase == Planning(next) && next < |w.run.selected| && w.run.Awaited().Some?
    requires Plain(w.run.Awaited().value) && Plain(e) && NameOf(w.run.Awaited().value) == NameOf(e)
    requires Holds(env, w.files, w.run.selected[next], e)
    ensures !Holds(env, PlanningStep(env, w, next, w.run.selected[next], a).files, w.run.selected[next], e) <==>
            Replaces(env, w, a, w.run.selected[next], e)
  {
    EntryNotStaging(w.run.selected[next], e, EntryPath(w.run.selected[next], e));
  }

  /** Workers touch package files and their staging only. */
  lemma WorkMissesMeta(env: Env, w: World, a: Action, q: string, e: MetaEntry)
    requires Inv(env, w) && w.run.phase.Downloading? && a.Work? && a.dest in w.run.jobs && Plain(e)
    ensures Same(w.files, Download(env, w, a).files, EntryPath(q, e))
  {
    var p := w.run.jobs[a.dest].package;
    AllPackagesMembers(w.run.plans, p);
    var plan :| plan in w.run.plans && p in plan.packages;
    assert Confined(plan.repo, p);
    EntryNotPackage(q, e, a.dest);
    WorkerStepOk(env, w.files, p, w.run.jobs[a.dest].worker, a.event);
  }

  lemma PublishLostExact(env: Env, w: World, i: nat, step: PublishStep, a: Action, q: string, e: MetaEntry)
    requires i < |w.run.plans| && w.run.phase == Publishing(i, step) && Plain(e) && Holds(env, w.files, q, e)
    ensures !Holds(env, PublishStepOf(env, w, i, step, a).files, q, e) <==> Remarks(env, w, a, q, e)
  {
    var r, x := w.run.plans[i].repo, EntryPath(q, e);
    EntryNotPublished(q, e, r);
    if x != Target(r, step) {
      EntryNotStaging(q, e, Target(r, step));
      PublishFrame(env, w, i, step, a, x);
    } else {
      MarkerLostExact(env, w, i, step, a, q, e);
    }
  }

  /** Publishing the nested repository's marker over the entry. */
  lemma MarkerLostExact(env: Env, w: World, i: nat, step: PublishStep, a: Action, q: string, e: MetaEntry)
    requires i < |w.run.plans| && w.run.phase == Publishing(i, step) && Plain(e) && Holds(env, w.files, q, e)
    requires EntryPath(q, e) == Target(w.run.plans[i].repo, step)
    ensures !Holds(env, PublishStepOf(env, w, i, step, a).files, q, e) <==> Remarks(env, w, a, q, e)
  {
    EntryNotPublished(q, e, w.run.plans[i].repo);
    EntryNotStaging(q, e, EntryPath(q, e));
    assert step.StageMarker? || step.PlaceMarker?;
  }

  // -------------------------------------------------------------- the entries of an index

  /** The metadata files an index names. */
  function Entries(env: Env, index: Bytes): seq<MetaEntry> {
    match env.entriesOf(index) case Some(entries) => entries case None => []
  }

  /** No later entry has the same name. */
  ghost predicate LastOf(entries: seq<MetaEntry>, i: nat)
    requires i < |entries|
  {
    forall j | i < j < |entries| :: NameOf(entries[j]) != NameOf(entries[i])
  }

  /** The entry names the marker of a repository that is nested in this one and is among the
      plans, so that publishing it will spoil the entry. */
  ghost predicate Exempt(plans: seq<Plan>, repo: string, e: MetaEntry) {
    NameOf(e) == MARKER && exists plan | plan in plans :: Split(plan.repo) == Split(repo) + [REPODATA]
  }

  /** Of each name the last entry holds, but for what the plans spoil. */
  ghost predicate Held(env: Env, files: Files, plans: seq<Plan>, repo: string, entries: seq<MetaEntry>) {
    && (forall i | 0 <= i < |entries| :: Plain(entries[i]))
    && forall i | 0 <= i < |entries| && LastOf(entries, i) ::
         Exempt(plans, repo, entries[i]) || Holds(env, files, repo, entries[i])
  }

  lemma HeldStays(env: Env, w: World, a: Action, plans: seq<Plan>, q: string, entries: seq<MetaEntry>)
    requires Inv(env, w) && Held(env, w.files, plans, q, entries)
    requires forall i | 0 <= i < |entries| && LastOf(entries, i) && !Exempt(plans, q, entries[i]) ::
               !Replaces(env, w, a, q, entries[i]) && !Remarks(env, w, a, q, entries[i])
    ensures Held(env, Apply(env, w, a).files, plans, q, entries)
  {
    forall i | 0 <= i < |entries| && LastOf(entries, i) && !Exempt(plans, q, entries[i])
      ensures Holds(env, Apply(env, w, a).files, q, entries[i])
    {
      MetaLostExact(env, w, a, q, entries[i]);
    }
  }

  lemma HeldWeaker(env: Env, files: Files, plans: seq<Plan>, more: seq<Plan>, q: string, entries: seq<MetaEntry>)
    requires Held(env, files, plans, q, entries) && forall plan | plan in plans :: plan in more
    ensures Held(env, files, more, q, entries)
  {
    forall i | 0 <= i < |entries| && LastOf(entries, i)
      ensures Exempt(more, q, entries[i]) || Holds(env, files, q, entries[i])
    {
      assert Exempt(plans, q, entries[i]) ==> Exempt(more, q, entries[i]);
    }
  }

  // ------------------------------------------------------- what threatens a metadata file

  ghost predicate CanBeServed(env: Env, e: MetaEntry) {
    Plain(e) && exists body :: Accepts(env, e, body)
  }

  /** Planning with a new index can cost the entry: some entry of the new one has its name,
      can be reached, and accepts bytes the old one does not. */
  ghost predicate Overtakes(env: Env, entries: seq<MetaEntry>, e: MetaEntry) {
    exists j | 0 <= j < |entries| ::
      NameOf(entries[j]) == NameOf(e) && (forall k | 0 <= k <= j :: CanBeServed(env, entries[k])) &&
      exists body | Accepts(env, entries[j], body) :: !Accepts(env, e, body)
  }

  ghost predicate SparesOld(env: Env, entries: seq<MetaEntry>, earlier: seq<MetaEntry>) {
    forall i | 0 <= i < |earlier| && LastOf(earlier, i) :: !Overtakes(env, entries, earlier[i])
  }

  /** Any marker that names the source of a nested repository is what the entry declares. */
  ghost predicate MarkerFits(env: Env, source: string, r: string, e: MetaEntry) {
    forall body | env.sourceOf(body) == Some(SourceName(source, r)) :: Accepts(env, e, body)
  }

  ghost predicate MarkersFit(env: Env, run: Run, q: string, entries: seq<MetaEntry>) {
    forall plan, i | plan in run.plans && Split(plan.repo) == Split(q) + [REPODATA] &&
                     0 <= i < |entries| && LastOf(entries, i) && NameOf(entries[i]) == MARKER ::
      MarkerFits(env, run.source, plan.repo, entries[i])
  }

  ghost predicate AllMarkersFit(env: Env, w: World) {
    && (forall r | r in w.authors :: MarkersFit(env, w.run, r, Entries(env, w.authors[r].1)))
    && (forall plan | plan in w.run.plans :: MarkersFit(env, w.run, plan.repo, Entries(env, plan.index)))
  }

  /** The index fetched on this step is for a repository that has a published one. */
  ghost predicate Refetches(env: Env, w: World, a: Action) {
    && a.FetchIndex? && w.run.phase.Planning? && w.run.phase.next < |w.run.selected| && w.run.fetching.None?
    && w.run.selected[w.run.phase.next] in w.authors
  }

  /** The step threatens no metadata file of a published index: a new index spares the old
      one's files, and when the checks pass the markers to be written fit what names them. */
  ghost predicate StepSpares(env: Env, w: World, a: Action) {
    && (Refetches(env, w, a) ==>
          SparesOld(env, Entries(env, a.index), Entries(env, w.authors[w.run.selected[w.run.phase.next]].1)))
    && (Begins(env, w, a) ==> AllMarkersFit(env, w))
  }

  ghost predicate NeverSpoiled(env: Env, w: World, actions: seq<Action>)
    decreases |actions|
  {
    actions == [] || (StepSpares(env, w, actions[0]) && NeverSpoiled(env, Apply(env, w, actions[0]), actions[1..]))
  }

  // ------------------------------------------------------------------------ the invariant

  /** The entries placed so far hold, and could be served. */
  ghost predicate FetchedOk(env: Env, w: World) {
    w.run.phase.Planning? && w.run.phase.next < |w.run.selected| && w.run.fetching.Some? ==>
      var index := w.run.fetching.value;
      && index.placed <= |index.entries| && index.entries == Entries(env, index.body)
      && Held(env, w.files, [], w.run.selected[w.run.phase.next], index.entries[..index.placed])
      && forall k | 0 <= k < index.placed :: CanBeServed(env, index.entries[k])
  }

  ghost predicate NewSparesOld(env: Env, w: World) {
    w.run.phase.Planning? && w.run.phase.next < |w.run.selected| && w.run.fetching.Some? &&
    w.run.selected[w.run.phase.next] in w.authors ==>
      SparesOld(env, w.run.fetching.value.entries, Entries(env, w.authors[w.run.selected[w.run.phase.next]].1))
  }

  /** What the planned indexes name is in place: all of it, or all but what the plans spoil. */
  ghost predicate PlansHeld(env: Env, w: World, full: bool) {
    Active(w.run.phase) || w.run.phase.Done? ==>
      forall plan | plan in w.run.plans ::
        Held(env, w.files, if full then [] else w.run.plans, plan.repo, Entries(env, plan.index))
  }

  ghost predicate AuthorsHeld(env: Env, w: World) {
    forall r | r in w.authors :: Held(env, w.files, [], r, Entries(env, w.authors[r].1))
  }

  ghost predicate FullOk(env: Env, w: World) {
    && AuthorsHeld(env, w) && NewSparesOld(env, w)
    && (w.run.phase.Downloading? || w.run.phase.Publishing? ==> AllMarkersFit(env, w))
  }

  ghost predicate MetaInv(env: Env, w: World, full: bool) {
    && OwnInv(env, w) && FetchedOk(env, w) && PlansHeld(env, w, full)
    && (w.run.phase.Guarding? ==> w.run.fetching.None?)
    && (full ==> FullOk(env, w))
  }

  // -------------------------------------------------------------------- planning keeps it

  /** Planning one repository costs no other one anything. */
  lemma PlanningElsewhere(env: Env, w: World, a: Action, plans: seq<Plan>, q: string, entries: seq<MetaEntry>)
    requires Inv(env, w) && w.run.phase.Planning? && Held(env, w.files, plans, q, entries)
    requires w.run.phase.next < |w.run.selected| ==> w.run.selected[w.run.phase.next] != q
    ensures Held(env, Apply(env, w, a).files, plans, q, entries)
  {
    HeldStays(env, w, a, plans, q, entries);
  }

  /** An index that spares the old one's files costs them nothing. */
  lemma OldIsSpared(env: Env, w: World, next: nat, a: Action)
    requires MetaInv(env, w, true) && w.run.phase == Planning(next) && next < |w.run.selected|
    requires w.run.selected[next] in w.authors
    ensures var q := w.run.selected[next];
            Held(env, Apply(env, w, a).files, [], q, Entries(env, w.authors[q].1))
  {
    var q := w.run.selected[next];
    var earlier := Entries(env, w.authors[q].1);
    forall i | 0 <= i < |earlier| && LastOf(earlier, i) ensures !Replaces(env, w, a, q, earlier[i]) {
      ReplacedIsOvertaken(env, w, next, a, earlier[i]);
    }
    HeldStays(env, w, a, [], q, earlier);
  }

  lemma ReplacedIsOvertaken(env: Env, w: World, next: nat, a: Action, e: MetaEntry)
    requires FetchedOk(env, w) && w.run.phase == Planning(next) && next < |w.run.selected|
    ensures Replaces(env, w, a, w.run.selected[next], e) ==> Overtakes(env, w.run.fetching.value.entries, e)
  {
    if Replaces(env, w, a, w.run.selected[next], e) {
      var index := w.run.fetching.value;
      var f := index.entries[index.placed];
      var body := w.files[Staging(EntryPath(w.run.selected[next], f))];
      assert Accepts(env, f, body) && !Accepts(env, e, body);
      assert CanBeServed(env, f);
    }
  }

  /** The awaited metadata file can be put in place. */
  ghost predicate Placing(env: Env, w: World, next: nat, a: Action) {
    && w.run.phase == Planning(next) && next < |w.run.selected|
    && w.run.Awaited().Some? && Plain(w.run.Awaited().value) && a.PlaceMeta?
    && var part := Staging(EntryPath(w.run.selected[next], w.run.Awaited().value));
       part in w.files && Accepts(env, w.run.Awaited().value, w.files[part])
  }

  lemma PlacedFile(env: Env, w: World, next: nat, a: Action)
    requires Placing(env, w, next, a)
    ensures var (w', index) := (PlanningStep(env, w, next, w.run.selected[next], a), w.run.fetching.value);
            && w'.run == w.run.(fetching := Some(index.(placed := index.placed + 1)))
            && Holds(env, w'.files, w.run.selected[next], w.run.Awaited().value)
            && CanBeServed(env, w.run.Awaited().value)
  {
    var f := w.run.Awaited().value;
    EntryNotStaging(w.run.selected[next], f, EntryPath(w.run.selected[next], f));
  }

  /** An entry that has just been placed holds, and so do the last ones of other names. */
  lemma PlacedHeld(env: Env, w: World, next: nat, a: Action)
    requires FetchedOk(env, w) && Placing(env, w, next, a)
    ensures var (q, index) := (w.run.selected[next], w.run.fetching.value);
            Held(env, PlanningStep(env, w, next, q, a).files, [], q, index.entries[..index.placed + 1])
  {
    var q, index := w.run.selected[next], w.run.fetching.value;
    var files := PlanningStep(env, w, next, q, a).files;
    forall i | 0 <= i <= index.placed && LastOf(index.entries[..index.placed + 1], i)
      ensures Holds(env, files, q, index.entries[i])
    {
      PlacedEntryHolds(env, w, next, a, i);
    }
    PlacedPlain(env, w);
    LongerHeld(env, files, q, index.entries, index.placed);
  }

  lemma PlacedEntryHolds(env: Env, w: World, next: nat, a: Action, i: nat)
    requires FetchedOk(env, w) && Placing(env, w, next, a)
    requires var index := w.run.fetching.value; i <= index.placed && LastOf(index.entries[..index.placed + 1], i)
    ensures var q := w.run.selected[next];
            Holds(env, PlanningStep(env, w, next, q, a).files, q, w.run.fetching.value.entries[i])
  {
    if i < w.run.fetching.value.placed {
      EarlierHolds(env, w, next, a, i);
    } else {
      PlacedFile(env, w, next, a);
    }
  }

  lemma PlacedPlain(env: Env, w: World)
    requires FetchedOk(env, w) && w.run.phase.Planning? && w.run.phase.next < |w.run.selected|
    requires w.run.Awaited().Some? && Plain(w.run.Awaited().value)
    ensures forall i | 0 <= i <= w.run.fetching.value.placed :: Plain(w.run.fetching.value.entries[i])
  {
    var index := w.run.fetching.value;
    assert forall i | 0 <= i < index.placed :: index.entries[i] == index.entries[..index.placed][i];
  }

  lemma LongerHeld(env: Env, files: Files, q: string, entries: seq<MetaEntry>, n: nat)
    requires n < |entries| && forall i | 0 <= i <= n :: Plain(entries[i])
    requires forall i | 0 <= i <= n && LastOf(entries[..n + 1], i) :: Holds(env, files, q, entries[i])
    ensures Held(env, files, [], q, entries[..n + 1])
  {
    assert forall i | 0 <= i <= n :: entries[..n + 1][i] == entries[i];
  }

  lemma PlacedHolds(env: Env, w: World, next: nat, a: Action)
    requires FetchedOk(env, w) && Placing(env, w, next, a)
    ensures FetchedOk(env, PlanningStep(env, w, next, w.run.selected[next], a))
  {
    PlacedFile(env, w, next, a);
    PlacedHeld(env, w, next, a);
  }

  lemma EarlierHolds(env: Env, w: World, next: nat, a: Action, i: nat)
    requires FetchedOk(env, w) && w.run.phase == Planning(next) && next < |w.run.selected| && w.run.Awaited().Some?
    requires var index := w.run.fetching.value;
             i < index.placed && LastOf(index.entries[..index.placed + 1], i) && Plain(w.run.Awaited().value)
    ensures var q := w.run.selected[next];
            Holds(env, PlanningStep(env, w, next, q, a).files, q, w.run.fetching.value.entries[i])
  {
    var index := w.run.fetching.value;
    ShorterLast(index.entries, index.placed, i);
    assert index.entries[..index.placed][i] == index.entries[i];
    OtherNameStays(env, w, next, a, index.entries[i]);
  }

  lemma ShorterLast(entries: seq<MetaEntry>, n: nat, i: nat)
    requires i < n < |entries| && LastOf(entries[..n + 1], i)
    ensures LastOf(entries[..n], i) && NameOf(entries[i]) != NameOf(entries[n])
  {
    var longer, shorter := entries[..n + 1], entries[..n];
    assert longer[n] == entries[n] && longer[i] == shorter[i] == entries[i];
    assert forall j | i < j < n :: shorter[j] == longer[j];
  }

  lemma OtherNameStays(env: Env, w: World, next: nat, a: Action, e: MetaEntry)
    requires w.run.phase == Planning(next) && next < |w.run.selected| && w.run.Awaited().Some?
    requires Plain(e) && Plain(w.run.Awaited().value) && NameOf(e) != NameOf(w.run.Awaited().value)
    requires Holds(env, w.files, w.run.selected[next], e)
    ensures Holds(env, PlanningStep(env, w, next, w.run.selected[next], a).files, w.run.selected[next], e)
  {
    var q, f := w.run.selected[next], w.run.Awaited().value;
    if EntryPath(q, e) == EntryPath(q, f) {
      MetaPathInjective(q, NameOf(e), q, NameOf(f));
    }
    EntryNotStaging(q, e, EntryPath(q, f));
    PlanningFrame(env, w, next, a, EntryPath(q, e));
  }

  lemma FetchingStays(env: Env, w: World, next: nat, a: Action)
    requires Inv(env, w) && FetchedOk(env, w) && w.run.phase == Planning(next) && next < |w.run.selected| && !a.Start?
    ensures FetchedOk(env, PlanningStep(env, w, next, w.run.selected[next], a))
  {
    if w.run.fetching.Some? && w.run.Awaited().Some? && Plain(w.run.Awaited().value) {
      AwaitingStays(env, w, next, a);
    } else {
      NoneAwaitedStays(env, w, next, a);
    }
  }

  lemma AwaitingStays(env: Env, w: World, next: nat, a: Action)
    requires Inv(env, w) && FetchedOk(env, w) && w.run.phase == Planning(next) && next < |w.run.selected| && !a.Start?
    requires w.run.Awaited().Some? && Plain(w.run.Awaited().value)
    ensures FetchedOk(env, PlanningStep(env, w, next, w.run.selected[next], a))
  {
    var w' := PlanningStep(env, w, next, w.run.selected[next], a);
    if w'.run.fetching == w.run.fetching {
      NothingPlaced(env, w, next, a);
      PlanningRun(env, w, next, a);
      SameFetching(env, w, w', next);
    } else {
      PlacedHolds(env, w, next, a);
    }
  }

  lemma NoneAwaitedStays(env: Env, w: World, next: nat, a: Action)
    requires FetchedOk(env, w) && w.run.phase == Planning(next) && next < |w.run.selected| && !a.Start?
    requires w.run.Awaited().Some? ==> !Plain(w.run.Awaited().value)
    ensures FetchedOk(env, PlanningStep(env, w, next, w.run.selected[next], a))
  {
  }

  lemma NothingPlaced(env: Env, w: World, next: nat, a: Action)
    requires Inv(env, w) && FetchedOk(env, w) && w.run.phase == Planning(next) && next < |w.run.selected|
    requires w.run.fetching.Some? && !a.Start?
    requires PlanningStep(env, w, next, w.run.selected[next], a).run.fetching == w.run.fetching
    ensures var (q, index) := (w.run.selected[next], w.run.fetching.value);
            Held(env, PlanningStep(env, w, next, q, a).files, [], q, index.entries[..index.placed])
  {
    var placed := w.run.fetching.value.entries[..w.run.fetching.value.placed];
    forall i | 0 <= i < |placed|
      ensures !Replaces(env, w, a, w.run.selected[next], placed[i])
      ensures !Remarks(env, w, a, w.run.selected[next], placed[i])
    {
      NotReplaced(env, w, next, a, placed[i]);
    }
    HeldStays(env, w, a, [], w.run.selected[next], placed);
  }

  lemma NotReplaced(env: Env, w: World, next: nat, a: Action, e: MetaEntry)
    requires w.run.phase == Planning(next) && next < |w.run.selected| && !a.Start? && w.run.fetching.Some?
    requires PlanningStep(env, w, next, w.run.selected[next], a).run.fetching == w.run.fetching
    ensures !Replaces(env, w, a, w.run.selected[next], e) && !Remarks(env, w, a, w.run.selected[next], e)
  {
  }

  lemma SameFetching(env: Env, w: World, w': World, next: nat)
    requires FetchedOk(env, w) && w.run.phase == Planning(next) && next < |w.run.selected| && w.run.fetching.Some?
    requires w'.run.fetching == w.run.fetching && w'.run.selected == w.run.selected
    requires var index := w.run.fetching.value;
             Held(env, w'.files, [], w.run.selected[next], index.entries[..index.placed])
    requires w'.run.phase.Planning? ==> w'.run.phase == w.run.phase
    ensures FetchedOk(env, w')
  {
  }

  /** No plan so far is for the repository being planned. */
  lemma PlannedElsewhere(run: Run, next: nat, plan: Plan)
    requires DistinctRepos(run) && run.phase == Planning(next) && next < |run.selected| && plan in run.plans
    ensures plan.repo != run.selected[next]
  {
    var i :| 0 <= i < |run.plans| && run.plans[i] == plan;
    assert run.plans[i].repo in run.selected[..next];
  }

  lemma PlanningPlans(env: Env, w: World, next: nat, a: Action, full: bool)
    requires MetaInv(env, w, full) && w.run.phase == Planning(next) && next < |w.run.selected| && !a.Start?
    ensures PlansHeld(env, PlanningStep(env, w, next, w.run.selected[next], a), full)
  {
    var w', spoiled := PlanningStep(env, w, next, w.run.selected[next], a), if full then [] else w.run.plans;
    forall plan | plan in w.run.plans ensures Held(env, w'.files, spoiled, plan.repo, Entries(env, plan.index)) {
      PlannedElsewhere(w.run, next, plan);
      PlanningElsewhere(env, w, a, spoiled, plan.repo, Entries(env, plan.index));
    }
    if w'.run.plans != w.run.plans {
      PlanIsAdded(env, w, next, a, full);
    }
  }

  lemma PlanIsAdded(env: Env, w: World, next: nat, a: Action, full: bool)
    requires MetaInv(env, w, full) && w.run.phase == Planning(next) && next < |w.run.selected| && !a.Start?
    requires PlanningStep(env, w, next, w.run.selected[next], a).run.plans != w.run.plans
    ensures PlansHeld(env, PlanningStep(env, w, next, w.run.selected[next], a), full)
  {
    var w' := PlanningStep(env, w, next, w.run.selected[next], a);
    var spoiled, more := if full then [] else w.run.plans, if full then [] else w'.run.plans;
    var added := AddedPlan(env, w, next, a);
    forall plan | plan in w'.run.plans ensures Held(env, w'.files, more, plan.repo, Entries(env, plan.index)) {
      HeldWeaker(env, w.files, if plan == added then [] else spoiled, more, plan.repo, Entries(env, plan.index));
    }
  }

  lemma AddedPlan(env: Env, w: World, next: nat, a: Action) returns (plan: Plan)
    requires FetchedOk(env, w) && w.run.phase == Planning(next) && next < |w.run.selected| && !a.Start?
    requires PlanningStep(env, w, next, w.run.selected[next], a).run.plans != w.run.plans
    ensures var w' := PlanningStep(env, w, next, w.run.selected[next], a);
            w'.run.plans == w.run.plans + [plan] && w'.files == w.files
    ensures Held(env, w.files, [], plan.repo, Entries(env, plan.index))
  {
    var w', index := PlanningStep(env, w, next, w.run.selected[next], a), w.run.fetching.value;
    assert index.entries[..index.placed] == index.entries;
    plan := w'.run.plans[|w.run.plans|];
  }

  lemma PlanningAuthors(env: Env, w: World, next: nat, a: Action)
    requires MetaInv(env, w, true) && w.run.phase == Planning(next) && next < |w.run.selected| && !a.Start?
    ensures AuthorsHeld(env, PlanningStep(env, w, next, w.run.selected[next], a))
  {
    PlanningRun(env, w, next, a);
    forall r | r in w.authors ensures Held(env, Apply(env, w, a).files, [], r, Entries(env, w.authors[r].1)) {
      if r == w.run.selected[next] {
        OldIsSpared(env, w, next, a);
      } else {
        PlanningElsewhere(env, w, a, [], r, Entries(env, w.authors[r].1));
      }
    }
  }

  /** The entries being fetched come from the index fetched last. */
  lemma FetchingRun(env: Env, w: World, next: nat, a: Action)
    requires w.run.phase == Planning(next) && next < |w.run.selected| && !a.Start?
    ensures var w' := PlanningStep(env, w, next, w.run.selected[next], a);
            w'.run.phase == Planning(next) && w'.run.fetching.Some? ==>
              if w.run.fetching.Some? then w'.run.fetching.value.entries == w.run.fetching.value.entries
              else a.FetchIndex? && w'.run.fetching.value.entries == Entries(env, a.index)
    ensures var w' := PlanningStep(env, w, next, w.run.selected[next], a);
            w'.run.phase.Planning? && w'.run.phase.next != next ==> w'.run.fetching.None?
  {
  }

  lemma PlanningNewSpares(env: Env, w: World, next: nat, a: Action)
    requires NewSparesOld(env, w) && StepSpares(env, w, a)
    requires w.run.phase == Planning(next) && next < |w.run.selected| && !a.Start?
    ensures NewSparesOld(env, PlanningStep(env, w, next, w.run.selected[next], a))
  {
    PlanningRun(env, w, next, a);
    FetchingRun(env, w, next, a);
  }

  lemma PlanningKeepsMeta(env: Env, w: World, next: nat, a: Action, full: bool, w': World)
    requires MetaInv(env, w, full) && w.run.phase == Planning(next) && next < |w.run.selected| && !a.Start?
    requires full ==> StepSpares(env, w, a)
    requires w' == PlanningStep(env, w, next, w.run.selected[next], a) && OwnInv(env, w')
    ensures MetaInv(env, w', full)
  {
    PlanningRun(env, w, next, a);
    FetchingStays(env, w, next, a);
    PlanningPlans(env, w, next, a, full);
    if full {
      PlanningAuthors(env, w, next, a);
      PlanningNewSpares(env, w, next, a);
    }
  }

  // ----------------------------------------------------- downloading and publishing keep it

  /** Two worlds of one run with the same plans and the same published indexes. */
  ghost predicate SameIndexes(w: World, w': World) {
    && w'.run.plans == w.run.plans && w'.run.source == w.run.source && w'.authors == w.authors
  }

  lemma DownloadRun(env: Env, w: World, a: Action)
    requires w.run.phase.Downloading? && !a.Start?
    ensures var w' := Apply(env, w, a);
            SameIndexes(w, w') && !w'.run.phase.Planning? && !w'.run.phase.Guarding?
  {
  }

  lemma CheckRun(env: Env, w: World, a: Action)
    requires w.run.phase.Planning? && w.run.phase.next >= |w.run.selected| && !a.Start?
    ensures var w' := Apply(env, w, a);
            && SameIndexes(w, w') && w'.files == w.files && w'.run.selected == w.run.selected
            && (w' == w || w'.run.phase.Failed? || (w'.run.phase.Downloading? && Begins(env, w, a)))
  {
  }

  /** Nothing an index names changes while packages are downloaded. */
  lemma DownloadHeld(env: Env, w: World, a: Action, plans: seq<Plan>, q: string, entries: seq<MetaEntry>)
    requires Inv(env, w) && w.run.phase.Downloading? && Held(env, w.files, plans, q, entries)
    ensures Held(env, Apply(env, w, a).files, plans, q, entries)
  {
    HeldStays(env, w, a, plans, q, entries);
  }

  lemma DownloadPlans(env: Env, w: World, a: Action, full: bool)
    requires MetaInv(env, w, full) && w.run.phase.Downloading? && !a.Start?
    ensures PlansHeld(env, Apply(env, w, a), full)
  {
    DownloadRun(env, w, a);
    forall plan | plan in w.run.plans
      ensures Held(env, Apply(env, w, a).files, if full then [] else w.run.plans, plan.repo, Entries(env, plan.index))
    {
      DownloadHeld(env, w, a, if full then [] else w.run.plans, plan.repo, Entries(env, plan.index));
    }
  }

  lemma DownloadAuthors(env: Env, w: World, a: Action)
    requires MetaInv(env, w, true) && w.run.phase.Downloading? && !a.Start?
    ensures AuthorsHeld(env, Apply(env, w, a)) && AllMarkersFit(env, Apply(env, w, a))
  {
    DownloadRun(env, w, a);
    forall r | r in w.authors ensures Held(env, Apply(env, w, a).files, [], r, Entries(env, w.authors[r].1)) {
      DownloadHeld(env, w, a, [], r, Entries(env, w.authors[r].1));
    }
    MarkersStillFit(env, w, Apply(env, w, a));
  }

  lemma MarkersStillFit(env: Env, w: World, w': World)
    requires AllMarkersFit(env, w) && SameIndexes(w, w')
    ensures AllMarkersFit(env, w')
  {
    forall r | r in w'.authors ensures MarkersFit(env, w'.run, r, Entries(env, w'.authors[r].1)) {
      assert MarkersFit(env, w.run, r, Entries(env, w.authors[r].1));
    }
    forall plan | plan in w'.run.plans ensures MarkersFit(env, w'.run, plan.repo, Entries(env, plan.index)) {
      assert MarkersFit(env, w.run, plan.repo, Entries(env, plan.index));
    }
  }

  lemma DownloadKeepsMeta(env: Env, w: World, a: Action, full: bool)
    requires MetaInv(env, w, full) && w.run.phase.Downloading? && !a.Start? && OwnInv(env, Apply(env, w, a))
    ensures MetaInv(env, Apply(env, w, a), full)
  {
    DownloadRun(env, w, a);
    DownloadPlans(env, w, a, full);
    if full {
      DownloadAuthors(env, w, a);
    }
  }

  lemma CheckKeepsMeta(env: Env, w: World, a: Action, full: bool)
    requires MetaInv(env, w, full) && (full ==> StepSpares(env, w, a)) && OwnInv(env, Apply(env, w, a)) && !a.Start?
    requires w.run.phase.Planning? && w.run.phase.next >= |w.run.selected|
    ensures MetaInv(env, Apply(env, w, a), full)
  {
    var w' := Apply(env, w, a);
    CheckRun(env, w, a);
    if w'.run.phase.Downloading? && full {
      MarkersStillFit(env, w, w');
    }
  }

  /** A marker that fits costs nothing. */
  lemma FittingMarker(env: Env, w: World, a: Action, q: string, entries: seq<MetaEntry>, k: nat)
    requires OwnInv(env, w) && MarkersFit(env, w.run, q, entries)
    requires k < |entries| && LastOf(entries, k)
    ensures !Remarks(env, w, a, q, entries[k])
  {
    if w.run.phase.Publishing? {
      assert w.run.plans[w.run.phase.plan] in w.run.plans;
    }
  }

  lemma PublishingHeld(env: Env, w: World, a: Action, plans: seq<Plan>, q: string, entries: seq<MetaEntry>)
    requires OwnInv(env, w) && w.run.phase.Publishing? && Held(env, w.files, plans, q, entries)
    requires plans == w.run.plans || MarkersFit(env, w.run, q, entries)
    ensures Held(env, Apply(env, w, a).files, plans, q, entries)
  {
    forall k | 0 <= k < |entries| && LastOf(entries, k) && !Exempt(plans, q, entries[k])
      ensures !Remarks(env, w, a, q, entries[k])
    {
      if plans == w.run.plans {
        assert w.run.plans[w.run.phase.plan] in plans;
      } else {
        FittingMarker(env, w, a, q, entries, k);
      }
    }
    HeldStays(env, w, a, plans, q, entries);
  }

  lemma PublishingPlans(env: Env, w: World, a: Action, full: bool)
    requires MetaInv(env, w, full) && w.run.phase.Publishing? && !a.Start?
    ensures Apply(env, w, a).run.plans == w.run.plans && PlansHeld(env, Apply(env, w, a), full)
  {
    var w' := Apply(env, w, a);
    PublishRun(env, w, w.run.phase.plan, w.run.phase.step, a);
    forall plan | plan in w.run.plans
      ensures Held(env, w'.files, if full then [] else w.run.plans, plan.repo, Entries(env, plan.index))
    {
      PublishingHeld(env, w, a, if full then [] else w.run.plans, plan.repo, Entries(env, plan.index));
    }
  }

  lemma PublishedHeld(env: Env, w: World, a: Action, r: string)
    requires MetaInv(env, w, true) && w.run.phase.Publishing? && !a.Start? && r in Apply(env, w, a).authors
    ensures var w' := Apply(env, w, a);
            && Held(env, w'.files, [], r, Entries(env, w'.authors[r].1))
            && MarkersFit(env, w.run, r, Entries(env, w'.authors[r].1))
  {
    var w', plan := Apply(env, w, a), w.run.plans[w.run.phase.plan];
    assert plan in w.run.plans;
    PublishProgress(env, w, w.run.phase.plan, w.run.phase.step, a, w');
    if w'.authors == w.authors || r != plan.repo {
      PublishingHeld(env, w, a, [], r, Entries(env, w.authors[r].1));
    } else {
      PublishingHeld(env, w, a, [], plan.repo, Entries(env, plan.index));
    }
  }

  lemma PublishingAuthors(env: Env, w: World, a: Action)
    requires MetaInv(env, w, true) && w.run.phase.Publishing? && !a.Start?
    ensures AuthorsHeld(env, Apply(env, w, a)) && AllMarkersFit(env, Apply(env, w, a))
  {
    var w' := Apply(env, w, a);
    PublishRun(env, w, w.run.phase.plan, w.run.phase.step, a);
    forall r | r in w'.authors
      ensures Held(env, w'.files, [], r, Entries(env, w'.authors[r].1))
      ensures MarkersFit(env, w'.run, r, Entries(env, w'.authors[r].1))
    {
      PublishedHeld(env, w, a, r);
    }
    forall plan | plan in w'.run.plans ensures MarkersFit(env, w'.run, plan.repo, Entries(env, plan.index)) {
      assert MarkersFit(env, w.run, plan.repo, Entries(env, plan.index));
    }
  }

  lemma PublishingKeepsMeta(env: Env, w: World, a: Action, full: bool)
    requires MetaInv(env, w, full) && w.run.phase.Publishing? && !a.Start? && OwnInv(env, Apply(env, w, a))
    ensures MetaInv(env, Apply(env, w, a), full)
  {
    PublishRun(env, w, w.run.phase.plan, w.run.phase.step, a);
    PublishingPlans(env, w, a, full);
    if full {
      PublishingAuthors(env, w, a);
    }
  }

  // ------------------------------------------------------------------------ every history

  lemma StartKeepsMeta(env: Env, w: World, a: Action, full: bool)
    requires MetaInv(env, w, full) && (a.Start? || w.run.phase.Guarding?) && OwnInv(env, Apply(env, w, a))
    ensures MetaInv(env, Apply(env, w, a), full)
  {
  }

  lemma MetaStepKeeps(env: Env, w: World, a: Action, full: bool)
    requires MetaInv(env, w, full) && (full ==> StepSpares(env, w, a))
    ensures MetaInv(env, Apply(env, w, a), full)
  {
    ApplyKeepsOwners(env, w, a);
    if a.Start? || w.run.phase.Guarding? {
      StartKeepsMeta(env, w, a, full);
    } else if w.run.phase.Publishing? {
      PublishingKeepsMeta(env, w, a, full);
    } else if w.run.phase.Planning? && w.run.phase.next < |w.run.selected| {
      PlanningKeepsMeta(env, w, w.run.phase.next, a, full, Apply(env, w, a));
    } else if w.run.phase.Planning? {
      CheckKeepsMeta(env, w, a, full);
    } else if w.run.phase.Downloading? {
      DownloadKeepsMeta(env, w, a, full);
    }
  }

  lemma {:induction false} MetaInvAlways(env: Env, w: World, actions: seq<Action>, full: bool)
    requires MetaInv(env, w, full) && (full ==> NeverSpoiled(env, w, actions))
    ensures MetaInv(env, Exec(env, w, actions), full)
    decreases |actions|
  {
    if actions != [] {
      MetaStepKeeps(env, w, actions[0], full);
      MetaInvAlways(env, Apply(env, w, actions[0]), actions[1..], full);
    }
  }

  // ------------------------------------------------------------------------ main results

  /** A run that completes has in place, for every planned repository, the last file of each
      name its index names, with the declared digest; all that can be missing is a file named
      like the marker of a nested repository the run has published too. */
  lemma CompletedRunHasMetadata(env: Env, files: Files, history: seq<Action>)
    requires Exec(env, Fresh(files), history).run.phase.Done?
    ensures var w := Exec(env, Fresh(files), history);
            forall plan | plan in w.run.plans :: Held(env, w.files, w.run.plans, plan.repo, Entries(env, plan.index))
  {
    MetaInvAlways(env, Fresh(files), history, false);
  }

  /** Over any history of runs that threatened none of them, all that any published index
      names is in place with its declared digest. */
  lemma PublishedMetadataStays(env: Env, files: Files, history: seq<Action>)
    requires NeverSpoiled(env, Fresh(files), history)
    ensures var w := Exec(env, Fresh(files), history);
            forall r | r in w.authors :: Held(env, w.files, [], r, Entries(env, w.authors[r].1))
  {
    MetaInvAlways(env, Fresh(files), history, true);
  }

  /** Where the two may differ: the file there is the nested repository's marker. */
  lemma SpoiledEntryIsMarker(env: Env, files: Files, history: seq<Action>, plan: Plan, inner: Plan, e: MetaEntry)
    requires Exec(env, Fresh(files), history).run.phase.Done?
    requires var plans := Exec(env, Fresh(files), history).run.plans; plan in plans && inner in plans
    requires Split(inner.repo) == Split(plan.repo) + [REPODATA] && Plain(e) && NameOf(e) == MARKER
    ensures var w := Exec(env, Fresh(files), history);
            && MarkerNames(env, w.files, w.run.source, inner.repo)
            && (Holds(env, w.files, plan.repo, e) <==> Accepts(env, e, w.files[MarkerPath(inner.repo)]))
  {
    CompletedRunIsWhole(env, files, history);
    EntryNotPublished(plan.repo, e, inner.repo);
  }
}
