/** What phase 1 of a mirror run learns, and the checks it makes over every
    repository's plan before the first package request (`feed_mirror.py`). */
module MirrorPlan {
  import opened Base
  import opened Segments
  import opened MirrorPaths

  /** One `<package>` of a primary listing, as the listing declares it. */
  datatype Entry = Entry(href: string, base: Option<string>, ctype: string, checksum: string, size: nat)

  /** One package this run intends to have on disk; `dest` is relative to the channel. */
  datatype Package = Package(dest: Path, ctype: string, checksum: string, size: nat)

  datatype Plan = Plan(repo: string, index: Bytes, signature: Option<Bytes>, packages: seq<Package>)

  datatype PackageResult = PackageResult(downloaded: bool, size: nat)

  type Files = map<Path, Bytes>

  const HASHERS := {"sha", "sha1", "sha224", "sha256", "sha384", "sha512"}

  datatype PlanRefusal = Unsafe(why: Refusal) | UnsupportedChecksum

  /** Confines every listed package, in listing order; the first violation refuses the repository. */
  function PlanPackages(repo: string, listing: seq<Entry>): Result<seq<Package>, PlanRefusal> {
    if listing == [] then Ok([])
    else
      var e := listing[0];
      match ConfinePackage(e.href, repo, e.base)
      case Err(why) => Err(Unsafe(why))
      case Ok(dest) =>
        if e.ctype !in HASHERS then Err(UnsupportedChecksum)
        else match PlanPackages(repo, listing[1..])
          case Err(why) => Err(why)
          case Ok(rest) => Ok([Package(dest, e.ctype, e.checksum, e.size)] + rest)
  }

  /** A planned package may only sit in the pool or in its own repository, under a
      plain name that ends in ".rpm" and is nowhere inside a `repodata` directory. */
  ghost predicate Confined(repo: string, p: Package) {
    && RepoOk(repo) && Lands(Split(repo), p.dest)
    && p.dest != [] && AllNames(p.dest) && NoSlash(p.dest) && EndsWith(Last(p.dest), RPM)
  }

  ghost predicate PlanConfined(plan: Plan) {
    forall p | p in plan.packages :: Confined(plan.repo, p)
  }

  lemma {:induction false} PlannedPackagesAreConfined(repo: string, listing: seq<Entry>)
    requires PlanPackages(repo, listing).Ok?
    ensures forall p | p in PlanPackages(repo, listing).value :: Confined(repo, p)
    ensures |PlanPackages(repo, listing).value| == |listing|
  {
    if listing != [] {
      var e := listing[0];
      var dest := ConfinePackage(e.href, repo, e.base).value;
      ConfinePackageExact(e.href, repo, e.base, dest);
      ConfinedShape(e.href, repo, e.base, dest);
      PlannedPackagesAreConfined(repo, listing[1..]);
    }
  }

  /** An entry that planning does not refuse. */
  predicate Plannable(repo: string, e: Entry) {
    ConfinePackage(e.href, repo, e.base).Ok? && e.ctype in HASHERS
  }

  /** A listing is planned if and only if every entry can be, and then the plan is the
      entries, one by one and in order, each at its confined destination. */
  lemma {:induction false} PlanPackagesExact(repo: string, listing: seq<Entry>)
    ensures PlanPackages(repo, listing).Ok? <==> forall i | 0 <= i < |listing| :: Plannable(repo, listing[i])
    ensures PlanPackages(repo, listing).Ok? ==>
              var packages := PlanPackages(repo, listing).value;
              && |packages| == |listing|
              && forall i | 0 <= i < |listing| ::
                   ConfinePackage(listing[i].href, repo, listing[i].base) == Ok(packages[i].dest) &&
                   packages[i].ctype == listing[i].ctype && packages[i].checksum == listing[i].checksum &&
                   packages[i].size == listing[i].size
  {
    if listing != [] {
      PlanPackagesExact(repo, listing[1..]);
      assert forall i | 0 < i < |listing| :: listing[i] == listing[1..][i - 1];
      assert forall i | 0 <= i < |listing[1..]| :: listing[1..][i] == listing[i + 1];
    }
  }

  /** Every package of every plan, in the order the loops visit them. */
  function AllPackages(plans: seq<Plan>): seq<Package> {
    if plans == [] then [] else AllPackages(plans[..|plans| - 1]) + plans[|plans| - 1].packages
  }

  lemma {:induction false} AllPackagesMembers(plans: seq<Plan>, p: Package)
    ensures p in AllPackages(plans) <==> exists plan | plan in plans :: p in plan.packages
  {
    if plans != [] {
      AllPackagesMembers(plans[..|plans| - 1], p);
    }
  }

  // ------------------------------------------------------- conflicting checksums

  ghost predicate Agree(p: Package, q: Package) {
    p.dest == q.dest ==> p.ctype == q.ctype && p.checksum == q.checksum
  }

  ghost predicate NoConflicts(ps: seq<Package>) {
    forall p, q | p in ps && q in ps :: Agree(p, q)
  }

  /** Two of the packages have destination `d` and do not agree. */
  ghost predicate ConflictAt(ps: seq<Package>, d: Path) {
    exists p, q | p in ps && q in ps :: p.dest == q.dest == d && !Agree(p, q)
  }

  /** `seen` holds one package of each destination visited, and all visited ones agree with it. */
  ghost predicate SeenAgrees(seen: map<Path, Package>, visited: seq<Package>) {
    && (forall d | d in seen :: seen[d] in visited && seen[d].dest == d)
    && (forall p | p in visited :: p.dest in seen && Agree(seen[p.dest], p))
  }

  method CheckNoConflictingChecksums(plans: seq<Plan>) returns (conflict: Option<Path>)
    ensures conflict.None? <==> NoConflicts(AllPackages(plans))
    ensures conflict.Some? ==> ConflictAt(AllPackages(plans), conflict.value)
  {
    var seen: map<Path, Package> := map[];
    for i := 0 to |plans|
      invariant SeenAgrees(seen, AllPackages(plans[..i]))
    {
      seen, conflict := CheckListing(seen, plans[i].packages, AllPackages(plans[..i]));
      if conflict.Some? {
        ConflictInAll(plans, i, conflict.value);
        return;
      }
      assert plans[..i + 1][..i] == plans[..i];
    }
    assert plans[..|plans|] == plans;
    return None;
  }

  /** The inner loop: one repository's listing against what was seen before it. */
  method CheckListing(before: map<Path, Package>, packages: seq<Package>, ghost earlier: seq<Package>)
    returns (seen: map<Path, Package>, conflict: Option<Path>)
    requires SeenAgrees(before, earlier)
    ensures conflict.None? ==> SeenAgrees(seen, earlier + packages)
    ensures conflict.Some? ==> ConflictAt(earlier + packages, conflict.value)
  {
    seen := before;
    ghost var visited := earlier;
    for j := 0 to |packages|
      invariant visited == earlier + packages[..j] && SeenAgrees(seen, visited)
    {
      var package := packages[j];
      assert earlier + packages[..j + 1] == visited + [package];
      if package.dest in seen {
        var existing := seen[package.dest];
        if existing.ctype != package.ctype || existing.checksum != package.checksum {
          assert existing in earlier + packages && package in earlier + packages;
          return seen, Some(package.dest);
        }
      } else {
        seen := seen[package.dest := package];
      }
      visited := visited + [package];
    }
    assert packages[..|packages|] == packages;
    conflict := None;
  }

  lemma ConflictInAll(plans: seq<Plan>, i: nat, d: Path)
    requires i < |plans| && ConflictAt(AllPackages(plans[..i]) + plans[i].packages, d)
    ensures ConflictAt(AllPackages(plans), d)
  {
    var both := AllPackages(plans[..i]) + plans[i].packages;
    var p, q :| p in both && q in both && p.dest == q.dest == d && !Agree(p, q);
    AllPackagesPrefix(plans, i, p);
    AllPackagesPrefix(plans, i, q);
  }

  lemma AllPackagesPrefix(plans: seq<Plan>, i: nat, p: Package)
    requires i < |plans|
    requires p in AllPackages(plans[..i]) || p in plans[i].packages
    ensures p in AllPackages(plans)
  {
    AllPackagesMembers(plans[..i], p);
    AllPackagesMembers(plans, p);
  }

  // -------------------------------------------------------------- de-duplication

  predicate HasDest(ps: seq<Package>, d: Path) {
    exists p | p in ps :: p.dest == d
  }

  /** First-seen package of each destination, in first-seen order. */
  function Unique(ps: seq<Package>): seq<Package> {
    if ps == [] then []
    else
      var front := Unique(ps[..|ps| - 1]);
      if HasDest(front, ps[|ps| - 1].dest) then front else front + [ps[|ps| - 1]]
  }

  ghost predicate DistinctDests(ps: seq<Package>) {
    forall i, j | 0 <= i < j < |ps| :: ps[i].dest != ps[j].dest
  }

  /** `u` is the first of `ps` with its destination. */
  ghost predicate FirstWithDest(ps: seq<Package>, u: Package) {
    exists i | 0 <= i < |ps| :: ps[i] == u && forall j | 0 <= j < i :: ps[j].dest != u.dest
  }

  /** De-duplication keeps exactly the first package of each destination, once. */
  lemma {:induction false} UniqueExact(ps: seq<Package>)
    ensures DistinctDests(Unique(ps))
    ensures forall u :: u in Unique(ps) <==> FirstWithDest(ps, u)
    ensures forall d :: HasDest(Unique(ps), d) <==> HasDest(ps, d)
  {
    if ps != [] {
      var front, last := ps[..|ps| - 1], ps[|ps| - 1];
      UniqueExact(front);
      forall d ensures HasDest(Unique(ps), d) <==> HasDest(ps, d) {
        assert HasDest(ps, d) <==> HasDest(front, d) || last.dest == d by {
          assert last in ps;
          if HasDest(front, d) {
            var p :| p in front && p.dest == d;
            assert p in ps;
          }
        }
        assert last.dest == d ==> HasDest(Unique(ps), d) by {
          assert HasDest(Unique(front), last.dest) || last in Unique(ps);
        }
      }
      forall u ensures u in Unique(ps) <==> FirstWithDest(ps, u) {
        FirstWithDestSnoc(ps, u);
      }
    }
  }

  lemma FirstWithDestSnoc(ps: seq<Package>, u: Package)
    requires ps != []
    ensures var front, last := ps[..|ps| - 1], ps[|ps| - 1];
            FirstWithDest(ps, u) <==> FirstWithDest(front, u) || (u == last && !HasDest(front, last.dest))
  {
    var front, last := ps[..|ps| - 1], ps[|ps| - 1];
    if FirstWithDest(front, u) {
      var i :| 0 <= i < |front| && front[i] == u && forall j | 0 <= j < i :: front[j].dest != u.dest;
      assert ps[i] == u && forall j | 0 <= j < i :: ps[j].dest != u.dest;
    }
    if u == last && !HasDest(front, last.dest) {
      forall j | 0 <= j < |front| ensures ps[j].dest != u.dest {
        assert front[j] in front;
      }
      assert ps[|front|] == u;
    }
    if FirstWithDest(ps, u) {
      var i :| 0 <= i < |ps| && ps[i] == u && forall j | 0 <= j < i :: ps[j].dest != u.dest;
      if i < |front| {
        assert front[i] == u && forall j | 0 <= j < i :: front[j].dest != u.dest;
      }
    }
  }

  lemma UniqueSnoc(ps: seq<Package>, p: Package)
    ensures Unique(ps + [p]) == if HasDest(Unique(ps), p.dest) then Unique(ps) else Unique(ps) + [p]
  {
    assert (ps + [p])[..|ps|] == ps;
  }

  lemma HasDestSnoc(ps: seq<Package>, p: Package)
    ensures forall d :: HasDest(ps + [p], d) <==> HasDest(ps, d) || d == p.dest
  {
    forall d ensures HasDest(ps + [p], d) <==> HasDest(ps, d) || d == p.dest {
      assert p in ps + [p];
      if HasDest(ps, d) {
        var q :| q in ps && q.dest == d;
        assert q in ps + [p];
      }
    }
  }

  /** After the packages visited, `unique` is what is kept and `seen` its destinations. */
  ghost predicate Kept(visited: seq<Package>, seen: set<Path>, unique: seq<Package>) {
    unique == Unique(visited) && forall d :: d in seen <==> HasDest(unique, d)
  }

  lemma KeepMore(visited: seq<Package>, seen: set<Path>, unique: seq<Package>, p: Package)
    requires Kept(visited, seen, unique)
    ensures if p.dest in seen then Kept(visited + [p], seen, unique)
            else Kept(visited + [p], seen + {p.dest}, unique + [p])
  {
    UniqueSnoc(visited, p);
    HasDestSnoc(unique, p);
  }

  method DedupePackages(plans: seq<Plan>) returns (unique: seq<Package>)
    ensures unique == Unique(AllPackages(plans))
  {
    var seen: set<Path> := {};
    unique := [];
    for i := 0 to |plans|
      invariant Kept(AllPackages(plans[..i]), seen, unique)
    {
      seen, unique := KeepUnseen(seen, unique, plans[i].packages, AllPackages(plans[..i]));
      assert plans[..i + 1][..i] == plans[..i];
    }
    assert plans[..|plans|] == plans;
  }

  lemma OneMore(earlier: seq<Package>, packages: seq<Package>, j: nat)
    requires j < |packages|
    ensures earlier + packages[..j + 1] == earlier + packages[..j] + [packages[j]]
  {
  }

  /** The inner loop: one repository's packages, those with an unseen destination kept. */
  method KeepUnseen(before: set<Path>, kept: seq<Package>, packages: seq<Package>, ghost earlier: seq<Package>)
    returns (seen: set<Path>, unique: seq<Package>)
    requires Kept(earlier, before, kept)
    ensures Kept(earlier + packages, seen, unique)
  {
    seen, unique := before, kept;
    assert earlier + packages[..0] == earlier;
    for j := 0 to |packages|
      invariant Kept(earlier + packages[..j], seen, unique)
    {
      var package := packages[j];
      OneMore(earlier, packages, j);
      KeepMore(earlier + packages[..j], seen, unique, package);
      if package.dest !in seen {
        seen := seen + {package.dest};
        unique := unique + [package];
      }
    }
    assert packages[..|packages|] == packages;
  }

  // ---------------------------------------------------------- cross-repository landing

  predicate Under(dir: Path, path: Path) {
    |path| > |dir| && path[..|dir|] == dir
  }

  /** The destination lies under `other`, which is not the package's own repository. */
  predicate LandsIn(other: string, repo: string, dest: Path) {
    other != repo && Under(Parts(other), dest)
  }

  ghost predicate LandsOutside(selected: seq<string>, repo: string, p: Package) {
    forall k | 0 <= k < |selected| :: !LandsIn(selected[k], repo, p.dest)
  }

  ghost predicate PlanLandsOutside(selected: seq<string>, plan: Plan) {
    forall j | 0 <= j < |plan.packages| :: LandsOutside(selected, plan.repo, plan.packages[j])
  }

  ghost predicate NoCrossLanding(selected: seq<string>, plans: seq<Plan>) {
    forall i | 0 <= i < |plans| :: PlanLandsOutside(selected, plans[i])
  }

  method CheckNoCrossRepoLanding(selected: seq<string>, plans: seq<Plan>) returns (ok: bool)
    ensures ok <==> NoCrossLanding(selected, plans)
  {
    for i := 0 to |plans|
      invariant forall i' | 0 <= i' < i :: PlanLandsOutside(selected, plans[i'])
    {
      var plan := plans[i];
      for j := 0 to |plan.packages|
        invariant forall j' | 0 <= j' < j :: LandsOutside(selected, plan.repo, plan.packages[j'])
      {
        var outside := CheckLanding(selected, plan.repo, plan.packages[j]);
        if !outside {
          assert !PlanLandsOutside(selected, plan);
          return false;
        }
      }
    }
    return true;
  }

  /** The innermost loop: one package against every other selected repository. */
  method CheckLanding(selected: seq<string>, repo: string, package: Package) returns (outside: bool)
    ensures outside <==> LandsOutside(selected, repo, package)
  {
    for k := 0 to |selected|
      invariant forall k' | 0 <= k' < k :: !LandsIn(selected[k'], repo, package.dest)
    {
      if LandsIn(selected[k], repo, package.dest) {
        return false;
      }
    }
    return true;
  }

  /** A pooled package can never trip the landing check. */
  lemma PooledNeverCrosses(other: string, p: Package)
    requires RepoOk(other) && InPool(p.dest)
    ensures !Under(Parts(other), p.dest)
  {
    RepoSegments(other);
    assert |p.dest| > |Split(other)| ==> p.dest[..|Split(other)|][0] == POOL;
  }

  /** One is a repository directory strictly inside the other. */
  predicate Inside(inner: string, outer: string) {
    Under(Split(outer), Split(inner))
  }

  /** The package is pooled if its repository is inside a selected one, and lies in no
      selected repository inside its own. */
  ghost predicate KeepsApart(selected: seq<string>, repo: string, p: Package) {
    && ((exists r | r in selected :: Inside(repo, r)) ==> InPool(p.dest))
    && (forall r | r in selected && Inside(r, repo) :: !Under(Split(r), p.dest))
  }

  /** Two directories over one path are equal or one is inside the other. */
  lemma Nested(other: string, repo: string, dest: Path)
    requires Under(Split(other), dest) && Under(Split(repo), dest) && other != repo
    ensures Inside(repo, other) || Inside(other, repo)
  {
    var o, n := Split(other), Split(repo);
    JoinSplit(other);
    JoinSplit(repo);
    assert |o| <= |n| ==> n[..|o|] == dest[..|n|][..|o|] == o;
    assert |n| <= |o| ==> o[..|n|] == dest[..|o|][..|n|] == n;
  }

  lemma LandsInExact(other: string, repo: string, p: Package)
    requires RepoOk(other) && RepoOk(repo) && Confined(repo, p)
    ensures LandsIn(other, repo, p.dest) <==>
            if Inside(repo, other) then !InPool(p.dest) else Inside(other, repo) && Under(Split(other), p.dest)
  {
    RepoSegments(other);
    RepoSegments(repo);
    if InPool(p.dest) {
      PooledNeverCrosses(other, p);
    } else {
      if Inside(repo, other) {
        assert p.dest[..|Split(other)|] == p.dest[..|Split(repo)|][..|Split(other)|];
      }
      if LandsIn(other, repo, p.dest) {
        Nested(other, repo, p.dest);
      }
    }
  }

  lemma LandsOutsideExact(selected: seq<string>, repo: string, p: Package)
    requires (forall r | r in selected :: RepoOk(r)) && RepoOk(repo) && Confined(repo, p)
    ensures LandsOutside(selected, repo, p) <==> KeepsApart(selected, repo, p)
  {
    forall r | r in selected
      ensures LandsIn(r, repo, p.dest) <==>
              if Inside(repo, r) then !InPool(p.dest) else Inside(r, repo) && Under(Split(r), p.dest)
      ensures Inside(r, repo) ==> !Inside(repo, r)
    {
      LandsInExact(r, repo, p);
    }
    if r :| r in selected && LandsIn(r, repo, p.dest) {
      var k :| 0 <= k < |selected| && selected[k] == r;
      assert !LandsOutside(selected, repo, p);
    }
    assert forall k | 0 <= k < |selected| :: selected[k] in selected;
  }

  /** The check is symmetric in a way its purpose is not. It passes exactly when every plan
      whose repository is inside a selected one lists only pooled packages, and no plan lists
      anything inside a selected repository inside its own. */
  lemma NestedRepositoriesExact(selected: seq<string>, plans: seq<Plan>)
    requires forall r | r in selected :: RepoOk(r)
    requires forall plan | plan in plans :: RepoOk(plan.repo) && PlanConfined(plan)
    ensures NoCrossLanding(selected, plans) <==>
            forall plan, p | plan in plans && p in plan.packages :: KeepsApart(selected, plan.repo, p)
  {
    forall plan, p | plan in plans && p in plan.packages
      ensures LandsOutside(selected, plan.repo, p) <==> KeepsApart(selected, plan.repo, p)
    {
      assert Confined(plan.repo, p);
      LandsOutsideExact(selected, plan.repo, p);
    }
    if NoCrossLanding(selected, plans) {
      forall plan, p | plan in plans && p in plan.packages ensures LandsOutside(selected, plan.repo, p) {
        var i :| 0 <= i < |plans| && plans[i] == plan;
        var j :| 0 <= j < |plan.packages| && plan.packages[j] == p;
      }
    } else {
      var i :| 0 <= i < |plans| && !PlanLandsOutside(selected, plans[i]);
      var j :| 0 <= j < |plans[i].packages| && !LandsOutside(selected, plans[i].repo, plans[i].packages[j]);
      assert plans[i] in plans && plans[i].packages[j] in plans[i].packages;
    }
  }

  // ------------------------------------------------------------------- disk preflight

  function Required(files: Files, ps: seq<Package>): nat {
    if ps == [] then 0
    else
      var p := ps[|ps| - 1];
      Required(files, ps[..|ps| - 1]) + if p.dest in files && |files[p.dest]| == p.size then 0 else p.size
  }

  method CheckDiskSpace(files: Files, packages: seq<Package>, free: nat) returns (ok: bool)
    ensures ok <==> Required(files, packages) <= free
  {
    var required := 0;
    for i := 0 to |packages|
      invariant required == Required(files, packages[..i])
    {
      var package := packages[i];
      assert packages[..i + 1][..i] == packages[..i];
      if package.dest !in files || |files[package.dest]| != package.size {
        required := required + package.size;
      }
    }
    assert packages[..|packages|] == packages;
    if required == 0 {
      return true;
    }
    return free >= required;
  }

  // -------------------------------------------------------------------- the run's tally

  datatype Outcome = Outcome(repo: string, packages: nat, downloaded: nat, reused: nat, bytes: nat)

  datatype Totals = Totals(downloaded: nat, reused: nat, bytes: nat)

  function BytesOf(results: map<Path, PackageResult>, d: Path): nat {
    if d in results && results[d].downloaded then results[d].size else 0
  }

  function SumDests(results: map<Path, PackageResult>, order: seq<Path>): nat {
    if order == [] then 0 else SumDests(results, order[..|order| - 1]) + BytesOf(results, order[|order| - 1])
  }

  function SumPackages(results: map<Path, PackageResult>, ps: seq<Package>): nat {
    if ps == [] then 0 else SumPackages(results, ps[..|ps| - 1]) + BytesOf(results, ps[|ps| - 1].dest)
  }

  function SumOutcomes(outcomes: seq<Outcome>): nat {
    if outcomes == [] then 0 else SumOutcomes(outcomes[..|outcomes| - 1]) + outcomes[|outcomes| - 1].bytes
  }

  ghost predicate NoDup<T>(s: seq<T>) {
    forall i, j | 0 <= i < j < |s| :: s[i] != s[j]
  }

  /** One repository's line of the report: every listed package is either
      downloaded or reused, and its bytes are those of its downloaded packages. */
  ghost predicate Reports(o: Outcome, plan: Plan, results: map<Path, PackageResult>) {
    && o.repo == plan.repo && o.packages == |plan.packages| == o.downloaded + o.reused
    && o.downloaded == Downloads(results, plan.packages)
    && o.bytes == SumPackages(results, plan.packages)
  }

  /** How many of the packages this run downloaded. */
  function Downloads(results: map<Path, PackageResult>, ps: seq<Package>): nat {
    if ps == [] then 0
    else
      var d := ps[|ps| - 1].dest;
      Downloads(results, ps[..|ps| - 1]) + if d in results && results[d].downloaded then 1 else 0
  }

  function DownloadsOf(results: map<Path, PackageResult>, order: seq<Path>): nat {
    if order == [] then 0
    else
      var d := order[|order| - 1];
      DownloadsOf(results, order[..|order| - 1]) + if d in results && results[d].downloaded then 1 else 0
  }

  method TallyRepo(plan: Plan, results: map<Path, PackageResult>) returns (outcome: Outcome)
    requires forall p | p in plan.packages :: p.dest in results
    ensures Reports(outcome, plan, results)
  {
    var downloaded, reused, bytes := 0, 0, 0;
    for j := 0 to |plan.packages|
      invariant downloaded + reused == j && downloaded == Downloads(results, plan.packages[..j])
      invariant bytes == SumPackages(results, plan.packages[..j])
    {
      assert plan.packages[..j + 1][..j] == plan.packages[..j];
      var result := results[plan.packages[j].dest];
      if result.downloaded {
        downloaded := downloaded + 1;
        bytes := bytes + result.size;
      } else {
        reused := reused + 1;
      }
    }
    assert plan.packages[..|plan.packages|] == plan.packages;
    outcome := Outcome(plan.repo, |plan.packages|, downloaded, reused, bytes);
  }

  /** `order` is the order in which results were recorded; each counts once. */
  method TallyRun(results: map<Path, PackageResult>, order: seq<Path>) returns (totals: Totals)
    requires forall d | d in order :: d in results
    ensures totals.downloaded + totals.reused == |order| && totals.downloaded == DownloadsOf(results, order)
    ensures totals.bytes == SumDests(results, order)
  {
    var downloaded, reused, bytes := 0, 0, 0;
    for k := 0 to |order|
      invariant downloaded + reused == k && downloaded == DownloadsOf(results, order[..k])
      invariant bytes == SumDests(results, order[..k])
    {
      assert order[..k + 1][..k] == order[..k];
      var result := results[order[k]];
      if result.downloaded {
        downloaded := downloaded + 1;
        bytes := bytes + result.size;
      } else {
        reused := reused + 1;
      }
    }
    assert order[..|order|] == order;
    totals := Totals(downloaded, reused, bytes);
  }

  /** Every repository's line, in the order of the plans. */
  method TallyRepos(plans: seq<Plan>, results: map<Path, PackageResult>) returns (outcomes: seq<Outcome>)
    requires forall p | p in AllPackages(plans) :: p.dest in results
    ensures |outcomes| == |plans| && forall i | 0 <= i < |plans| :: Reports(outcomes[i], plans[i], results)
    ensures SumOutcomes(outcomes) == SumPackages(results, AllPackages(plans))
  {
    outcomes := [];
    assert plans[..0] == [];
    for i := 0 to |plans|
      invariant Tallied(outcomes, plans, results, i)
    {
      AllPackagesMembersOf(plans, plans[i]);
      var outcome := TallyRepo(plans[i], results);
      TallyOneMore(outcomes, plans, results, i, outcome);
      outcomes := outcomes + [outcome];
    }
    assert plans[..|plans|] == plans;
  }

  /** The outcomes of the first `i` plans. */
  ghost predicate Tallied(outcomes: seq<Outcome>, plans: seq<Plan>, results: map<Path, PackageResult>, i: nat) {
    && |outcomes| == i <= |plans| && (forall k | 0 <= k < i :: Reports(outcomes[k], plans[k], results))
    && SumOutcomes(outcomes) == SumPackages(results, AllPackages(plans[..i]))
  }

  lemma TallyOneMore(outcomes: seq<Outcome>, plans: seq<Plan>, results: map<Path, PackageResult>, i: nat,
          outcome: Outcome)
    requires i < |plans| && Tallied(outcomes, plans, results, i) && Reports(outcome, plans[i], results)
    ensures Tallied(outcomes + [outcome], plans, results, i + 1)
  {
    assert plans[..i + 1][..i] == plans[..i];
    SumPackagesAppend(results, AllPackages(plans[..i]), plans[i].packages);
    assert (outcomes + [outcome])[..i] == outcomes;
  }

  lemma AllPackagesMembersOf(plans: seq<Plan>, plan: Plan)
    requires plan in plans
    ensures forall p | p in plan.packages :: p in AllPackages(plans)
  {
    forall p | p in plan.packages ensures p in AllPackages(plans) {
      AllPackagesMembers(plans, p);
    }
  }

  /** Each repository accounts for all its packages, the run for every unique
      destination once, and together the repositories report at least the run's bytes. */
  method Summarize(plans: seq<Plan>, results: map<Path, PackageResult>, order: seq<Path>)
    returns (outcomes: seq<Outcome>, totals: Totals)
    requires NoDup(order) && forall d :: d in results <==> d in order
    requires forall d :: d in results <==> HasDest(AllPackages(plans), d)
    ensures |outcomes| == |plans| && forall i | 0 <= i < |plans| :: Reports(outcomes[i], plans[i], results)
    ensures totals.downloaded + totals.reused == |Unique(AllPackages(plans))|
    ensures totals.downloaded == DownloadsOf(results, order)
    ensures totals.bytes == SumDests(results, order) <= SumOutcomes(outcomes)
  {
    forall p | p in AllPackages(plans) ensures p.dest in results {
      assert HasDest(AllPackages(plans), p.dest);
    }
    outcomes := TallyRepos(plans, results);
    totals := TallyRun(results, order);
    CompletionsCoverUnique(AllPackages(plans), order);
    CoveredSum(results, order, AllPackages(plans));
  }

  lemma {:induction false} SumPackagesAppend(results: map<Path, PackageResult>, a: seq<Package>, b: seq<Package>)
    ensures SumPackages(results, a + b) == SumPackages(results, a) + SumPackages(results, b)
  {
    if b == [] {
      assert a + b == a;
    } else {
      SumPackagesAppend(results, a, b[..|b| - 1]);
      assert (a + b)[..|a + b| - 1] == a + b[..|b| - 1];
    }
  }

  function RemoveAt<T>(s: seq<T>, k: nat): seq<T>
    requires k < |s|
  {
    s[..k] + s[k + 1..]
  }

  lemma {:induction false} SumDestsRemove(results: map<Path, PackageResult>, order: seq<Path>, k: nat)
    requires k < |order|
    ensures SumDests(results, order) == SumDests(results, RemoveAt(order, k)) + BytesOf(results, order[k])
  {
    if k == |order| - 1 {
      assert RemoveAt(order, k) == order[..|order| - 1];
    } else {
      var front := order[..|order| - 1];
      SumDestsRemove(results, front, k);
      var less := RemoveAt(order, k);
      assert less[..|less| - 1] == RemoveAt(front, k);
    }
  }

  /** Counting each destination once never exceeds counting it once per listing. */
  lemma {:induction false} CoveredSum(results: map<Path, PackageResult>, order: seq<Path>, ps: seq<Package>)
    requires NoDup(order) && forall d | d in order :: HasDest(ps, d)
    ensures SumDests(results, order) <= SumPackages(results, ps)
    decreases |ps|
  {
    assert order == [] || order[0] in order;
    if ps != [] {
      var front, last := ps[..|ps| - 1], ps[|ps| - 1];
      if last.dest in order {
        var k :| 0 <= k < |order| && order[k] == last.dest;
        var less := RemoveAt(order, k);
        SumDestsRemove(results, order, k);
        forall d | d in less ensures HasDest(front, d) {
          RemovedIsGone(order, k, d);
          HasDestFront(ps, d);
        }
        CoveredSum(results, less, front);
      } else {
        forall d | d in order ensures HasDest(front, d) {
          HasDestFront(ps, d);
        }
        CoveredSum(results, order, front);
      }
    }
  }

  lemma RemovedIsGone<T>(s: seq<T>, k: nat, x: T)
    requires NoDup(s) && k < |s| && x in RemoveAt(s, k)
    ensures x in s && x != s[k]
  {
    var less := RemoveAt(s, k);
    var i :| 0 <= i < |less| && less[i] == x;
    assert s[if i < k then i else i + 1] == x;
  }

  lemma HasDestFront(ps: seq<Package>, d: Path)
    requires ps != [] && HasDest(ps, d) && ps[|ps| - 1].dest != d
    ensures HasDest(ps[..|ps| - 1], d)
  {
    var p :| p in ps && p.dest == d;
    assert p in ps[..|ps| - 1];
  }

  /** One result per unique destination: the completion order has as many entries
      as de-duplication kept packages. */
  lemma CompletionsCoverUnique(ps: seq<Package>, order: seq<Path>)
    requires NoDup(order) && forall d :: d in order <==> HasDest(ps, d)
    ensures |order| == |Unique(ps)|
  {
    UniqueExact(ps);
    var us := Unique(ps);
    var dests := seq(|us|, i requires 0 <= i < |us| => us[i].dest);
    assert NoDup(dests);
    forall d ensures d in dests <==> d in order {
      if d in dests {
        var i :| 0 <= i < |dests| && dests[i] == d;
        assert FirstWithDest(ps, us[i]);
        assert HasDest(ps, d);
      }
      if d in order {
        assert HasDest(ps, d);
        var p :| p in ps && p.dest == d;
        var u :| u in us && u.dest == d;
        var i :| 0 <= i < |us| && us[i] == u;
        assert dests[i] == d;
      }
    }
    SameElements(dests, order);
  }

  lemma {:induction false} SameElements<T>(a: seq<T>, b: seq<T>)
    requires NoDup(a) && NoDup(b) && forall x :: x in a <==> x in b
    ensures |a| == |b|
    decreases |a|
  {
    assert b == [] || b[0] in b;
    if a != [] {
      var x := a[0];
      assert x in a;
      var k :| 0 <= k < |b| && b[k] == x;
      var b' := RemoveAt(b, k);
      forall y ensures y in a[1..] <==> y in b' {
        if y in a[1..] {
          assert y in a && y != x;
          var i :| 0 <= i < |b| && b[i] == y;
          assert b'[if i < k then i else i - 1] == y;
        }
        if y in b' {
          var i :| 0 <= i < |b'| && b'[i] == y;
          assert b[if i < k then i else i + 1] == y;
          assert y in b && y in a && y != x;
        }
      }
      SameElements(a[1..], b');
    }
  }
}
