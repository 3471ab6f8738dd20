/** The native leak scan (`elfscan.py`): a walk over a work tree that resolves declared
    dependencies inside fixed roots, caches what it reads, and classifies unresolved
    dependencies only once the whole tree has been seen. */
module LeakScan {
  import opened Base
  import opened Segments
  import opened Versions

  /** A location as written: absolute or not, and its segments. */
  datatype Loc = Loc(absolute: bool, segs: Path)

  /** `directory / name`: an absolute name replaces the directory. */
  function JoinLoc(directory: Loc, name: Loc): Loc {
    if name.absolute then name else Loc(directory.absolute, directory.segs + name.segs)
  }

  function BaseName(l: Loc): string {
    if l.segs == [] then "" else Last(l.segs)
  }

  /** "." and ".." folded away, clamped at the root. */
  function Normal(l: Loc): Path {
    NormFold([], l.segs, true)
  }

  predicate Within(p: Path, roots: seq<Path>) {
    exists r | r in roots :: r <= p
  }

  predicate LexicallyWithin(l: Loc, roots: seq<Path>) {
    Within(Normal(l), roots)
  }

  /** What reading an ELF file yields: whether it has a dynamic section, the version nodes
      it requires, the dependencies it declares, and its run paths, expanded. */
  datatype Info = Info(dynamic: bool, nodes: set<string>, needed: seq<Loc>, runpaths: seq<Loc>)

  /** The file system and the ELF reader, as functions of a path. */
  datatype Fs = Fs(
    isLink: Path -> bool,
    realpath: Loc -> Path,
    isFile: Path -> bool,
    isElf: Path -> bool,
    read: Path -> Option<Info>,
    hostPlatform: Path -> bool)

  /** The roots of one scan, fixed before the walk. */
  datatype Roots = Roots(work: seq<Path>, sanctioned: seq<Path>, host: seq<Loc>, permitted: seq<Path>)

  // --------------------------------------------------------------- confined resolution

  datatype Probe = Skipped | OutOfRoots | Missing | Found(path: Path)

  /** What one candidate location comes to. */
  function ProbeOf(fs: Fs, permitted: seq<Path>, candidate: Loc): Probe {
    if !candidate.absolute then Skipped
    else if !LexicallyWithin(candidate, permitted) then OutOfRoots
    else if !Within(fs.realpath(candidate), permitted) then OutOfRoots
    else if fs.isFile(fs.realpath(candidate)) then Found(fs.realpath(candidate))
    else Missing
  }

  /** The first candidate that is found wins; otherwise whether any was refused. */
  function Resolved(fs: Fs, permitted: seq<Path>, name: Loc, dirs: seq<Loc>): (r: (Option<Path>, bool))
    ensures r.0.Some? ==> !r.1
  {
    if dirs == [] then (None, false)
    else match ProbeOf(fs, permitted, JoinLoc(dirs[0], name))
      case Found(p) => (Some(p), false)
      case OutOfRoots =>
        (match Resolved(fs, permitted, name, dirs[1..])
         case (Some(p), _) => (Some(p), false)
         case (None, _) => (None, true))
      case _ => Resolved(fs, permitted, name, dirs[1..])
  }

  method ResolveNeeded(fs: Fs, name: Loc, dirs: seq<Loc>, permitted: seq<Path>)
    returns (dependency: Option<Path>, refused: bool)
    ensures (dependency, refused) == Resolved(fs, permitted, name, dirs)
  {
    refused := false;
    var i := 0;
    assert dirs[0..] == dirs;
    while i < |dirs|
      invariant i <= |dirs|
      invariant Resolved(fs, permitted, name, dirs) ==
                match Resolved(fs, permitted, name, dirs[i..])
                case (Some(p), _) => (Some(p), false)
                case (None, r) => (None, refused || r)
    {
      var candidate := JoinLoc(dirs[i], name);
      assert dirs[i..][1..] == dirs[i + 1..];
      if candidate.absolute {
        if !LexicallyWithin(candidate, permitted) {
          refused := true;
        } else {
          var final := fs.realpath(candidate);
          if !Within(final, permitted) {
            refused := true;
          } else if fs.isFile(final) {
            return Some(final), false;
          }
        }
      }
      i := i + 1;
    }
    return None, refused;
  }

  ghost predicate NoneFound(fs: Fs, permitted: seq<Path>, name: Loc, dirs: seq<Loc>) {
    forall j | 0 <= j < |dirs| :: !ProbeOf(fs, permitted, JoinLoc(dirs[j], name)).Found?
  }

  ghost predicate SomeRefused(fs: Fs, permitted: seq<Path>, name: Loc, dirs: seq<Loc>) {
    exists j | 0 <= j < |dirs| :: ProbeOf(fs, permitted, JoinLoc(dirs[j], name)).OutOfRoots?
  }

  ghost predicate FoundFirst(fs: Fs, permitted: seq<Path>, name: Loc, dirs: seq<Loc>, p: Path) {
    exists k | 0 <= k < |dirs| ::
      ProbeOf(fs, permitted, JoinLoc(dirs[k], name)) == Found(p) && NoneFound(fs, permitted, name, dirs[..k])
  }

  lemma FoundLater(fs: Fs, permitted: seq<Path>, name: Loc, dirs: seq<Loc>, p: Path)
    requires dirs != [] && !ProbeOf(fs, permitted, JoinLoc(dirs[0], name)).Found?
    requires FoundFirst(fs, permitted, name, dirs[1..], p)
    ensures FoundFirst(fs, permitted, name, dirs, p)
  {
    var k :| 0 <= k < |dirs[1..]| && ProbeOf(fs, permitted, JoinLoc(dirs[1..][k], name)) == Found(p)
             && NoneFound(fs, permitted, name, dirs[1..][..k]);
    var front := dirs[..k + 1];
    forall j | 0 <= j < |front| ensures !ProbeOf(fs, permitted, JoinLoc(front[j], name)).Found? {
      if j > 0 {
        assert front[j] == dirs[1..][..k][j - 1];
      }
    }
    assert dirs[k + 1] == dirs[1..][k];
  }

  /** Resolution exactly: the first candidate that is found, a file inside the permitted
      roots; or none is found, and refused says whether one was out of the roots. */
  lemma {:induction false} ResolvedExact(fs: Fs, permitted: seq<Path>, name: Loc, dirs: seq<Loc>)
    ensures match Resolved(fs, permitted, name, dirs)
            case (Some(p), refused) =>
              !refused && FoundFirst(fs, permitted, name, dirs, p) && Within(p, permitted) && fs.isFile(p)
            case (None, refused) =>
              NoneFound(fs, permitted, name, dirs) && (refused <==> SomeRefused(fs, permitted, name, dirs))
  {
    if dirs != [] {
      ResolvedExact(fs, permitted, name, dirs[1..]);
      var (rest, _) := Resolved(fs, permitted, name, dirs[1..]);
      var first := ProbeOf(fs, permitted, JoinLoc(dirs[0], name));
      assert dirs == [dirs[0]] + dirs[1..];
      if first.Found? {
        assert dirs[..0] == [];
      } else if rest.Some? {
        FoundLater(fs, permitted, name, dirs, rest.value);
      }
    }
  }

  /** Confinement as a guarantee: what lies outside the permitted roots cannot influence
      the result. Two file systems that agree about the lexically permitted candidates,
      and about permitted files, resolve alike. */
  lemma {:induction false} ResolutionIsConfined(fs: Fs, gs: Fs, permitted: seq<Path>, name: Loc, dirs: seq<Loc>)
    requires forall l: Loc | LexicallyWithin(l, permitted) :: fs.realpath(l) == gs.realpath(l)
    requires forall p: Path | Within(p, permitted) :: fs.isFile(p) == gs.isFile(p)
    ensures Resolved(fs, permitted, name, dirs) == Resolved(gs, permitted, name, dirs)
  {
    if dirs != [] {
      ResolutionIsConfined(fs, gs, permitted, name, dirs[1..]);
      assert ProbeOf(fs, permitted, JoinLoc(dirs[0], name)) == ProbeOf(gs, permitted, JoinLoc(dirs[0], name));
    }
  }

  // ------------------------------------------------------------ what one dependency comes to

  datatype Reason = Provided | ForeignPlatform | NoGlibc

  datatype Fate =
    | Sanctioned
    | ReadAt(resolved: Path)
    | UnreadableAt(resolved: Path)
    | Refused
    | Excluded(reason: Reason)
    | Reported

  /** Why a dependency that resolved to no file need not be reported, if it need not. */
  function UncheckedReason(fs: Fs, artifact: Path, name: Loc, info: Info, provided: set<string>): Option<Reason> {
    if BaseName(name) in provided then Some(Provided)
    else if !fs.hostPlatform(artifact) then Some(ForeignPlatform)
    else if info.nodes == {} then Some(NoGlibc)
    else None
  }

  function NodesAt(fs: Fs, p: Path): Option<set<string>> {
    match fs.read(p) case None => None case Some(info) => Some(info.nodes)
  }

  function FateOf(fs: Fs, roots: Roots, provided: set<string>, artifact: Path, info: Info, name: Loc): Fate {
    match Resolved(fs, roots.permitted, name, info.runpaths + roots.host)
    case (Some(p), _) =>
      if Within(p, roots.sanctioned) then Sanctioned
      else if NodesAt(fs, p).Some? then ReadAt(p)
      else UnreadableAt(p)
    case (None, true) => Refused
    case (None, false) =>
      match UncheckedReason(fs, artifact, name, info, provided)
      case Some(reason) => Excluded(reason)
      case None => Reported
  }

  // -------------------------------------------------------------- what the scan reports

  /** A version node above the ceiling; `via` names the dependency it was reached through. */
  datatype Leak = Leak(artifact: Path, node: string, via: Option<(Loc, Path)>)

  datatype Line =
    | CannotRead(artifact: Path)
    | DeclaresOutOfScope(artifact: Path, name: Loc)
    | DeclaresUnreadable(artifact: Path, name: Loc, resolved: Path)
    | DeclaresNoFile(artifact: Path, name: Loc)

  function ProvidedBy(fs: Fs, roots: Roots, entry: Path): set<string> {
    if entry == [] then {}
    else if fs.isLink(entry) then
      var target := fs.realpath(Loc(true, entry));
      if Within(target, roots.work) && fs.isElf(target) then {Last(entry)} else {}
    else if fs.isElf(entry) then {Last(entry)}
    else {}
  }

  function AllProvided(fs: Fs, roots: Roots, entries: seq<Path>): set<string> {
    if entries == [] then {}
    else AllProvided(fs, roots, entries[..|entries| - 1]) + ProvidedBy(fs, roots, entries[|entries| - 1])
  }

  /** An artifact the scan looks into: a regular ELF file that could be read and has a
      dynamic section. */
  function Dynamic(fs: Fs, entry: Path): Option<Info> {
    if fs.isLink(entry) || !fs.isElf(entry) then None
    else match fs.read(entry)
      case Some(info) => if info.dynamic then Some(info) else None
      case None => None
  }

  ghost function LeaksAt(artifact: Path, nodes: set<string>, ceiling: Version,
          via: Option<(Loc, Path)>): multiset<Leak>
  {
    multiset(set n | n in AboveSet(nodes, ceiling) :: Leak(artifact, n, via))
  }

  function LineOfFate(artifact: Path, name: Loc, fate: Fate): multiset<Line> {
    match fate
    case UnreadableAt(p) => multiset{DeclaresUnreadable(artifact, name, p)}
    case Refused => multiset{DeclaresOutOfScope(artifact, name)}
    case Reported => multiset{DeclaresNoFile(artifact, name)}
    case _ => multiset{}
  }

  function ReasonOfFate(fate: Fate): multiset<Reason> {
    if fate.Excluded? then multiset{fate.reason} else multiset{}
  }

  // ------------------------------------------------------------------ sums over sequences

  /** The sum of `f` over a sequence. */
  ghost function Gather<T, U>(f: T -> multiset<U>, xs: seq<T>): multiset<U> {
    if xs == [] then multiset{} else Gather(f, xs[..|xs| - 1]) + f(xs[|xs| - 1])
  }

  lemma {:induction false} GatherRemove<T, U>(f: T -> multiset<U>, xs: seq<T>, k: nat)
    requires k < |xs|
    ensures Gather(f, xs) == Gather(f, xs[..k] + xs[k + 1..]) + f(xs[k])
  {
    if k == |xs| - 1 {
      assert xs[..k] + xs[k + 1..] == xs[..|xs| - 1];
    } else {
      var front := xs[..|xs| - 1];
      GatherRemove(f, front, k);
      var less := xs[..k] + xs[k + 1..];
      assert less[..|less| - 1] == front[..k] + front[k + 1..];
    }
  }

  lemma RemoveAt<T>(ys: seq<T>, k: nat)
    requires k < |ys|
    ensures multiset(ys[..k] + ys[k + 1..]) == multiset(ys) - multiset{ys[k]}
  {
    assert ys == ys[..k] + [ys[k]] + ys[k + 1..];
  }

  /** Summing does not depend on the order. */
  lemma {:induction false} GatherPermuted<T, U>(f: T -> multiset<U>, xs: seq<T>, ys: seq<T>)
    requires multiset(xs) == multiset(ys)
    ensures Gather(f, xs) == Gather(f, ys)
    decreases |xs|
  {
    if xs == [] {
      assert |multiset(ys)| == |ys|;
    } else {
      var x, front := xs[|xs| - 1], xs[..|xs| - 1];
      assert xs == front + [x];
      assert x in multiset(xs) && x in ys;
      var k :| 0 <= k < |ys| && ys[k] == x;
      RemoveAt(ys, k);
      RemoveAt(xs, |xs| - 1);
      assert front + xs[|xs|..] == front;
      GatherRemove(f, ys, k);
      GatherPermuted(f, front, ys[..k] + ys[k + 1..]);
    }
  }

  lemma GatherAppend<T, U>(f: T -> multiset<U>, xs: seq<T>, ys: seq<T>)
    ensures Gather(f, xs + ys) == Gather(f, xs) + Gather(f, ys)
  {
    if ys == [] {
      assert xs + ys == xs;
    } else {
      GatherAppend(f, xs, ys[..|ys| - 1]);
      assert (xs + ys)[..|xs + ys| - 1] == xs + ys[..|ys| - 1];
    }
  }

  lemma GatherOne<T, U>(f: T -> multiset<U>, x: T)
    ensures Gather(f, [x]) == f(x)
  {
    assert [x][..0] == [];
  }

  lemma GatherMore<T, U>(f: T -> multiset<U>, xs: seq<T>, i: nat, out: seq<U>, more: seq<U>)
    requires i < |xs| && multiset(out) == Gather(f, xs[..i]) && multiset(more) == f(xs[i])
    ensures multiset(out + more) == Gather(f, xs[..i + 1])
  {
    assert xs[..i + 1][..i] == xs[..i];
  }

  lemma GatherCount<T, U>(f: T -> multiset<U>, xs: seq<T>, i: nat)
    requires i < |xs|
    ensures |Gather(f, xs[..i + 1])| == |Gather(f, xs[..i])| + |f(xs[i])|
  {
    assert xs[..i + 1][..i] == xs[..i];
  }

  lemma GatherMoreVia<T, S, U>(f: T -> multiset<U>, xs: seq<T>, i: nat, g: S -> multiset<U>, out: seq<S>, more: seq<S>)
    requires i < |xs| && Gather(g, out) == Gather(f, xs[..i]) && Gather(g, more) == f(xs[i])
    ensures Gather(g, out + more) == Gather(f, xs[..i + 1])
  {
    assert xs[..i + 1][..i] == xs[..i];
    GatherAppend(g, out, more);
  }

  // ---------------------------------------------- what each artifact contributes, by itself

  ghost function DepLeaks(fs: Fs, roots: Roots, ceiling: Version, artifact: Path, info: Info): Loc -> multiset<Leak> {
    (name: Loc) =>
      var fate := FateOf(fs, roots, {}, artifact, info, name);
      if fate.ReadAt? && NodesAt(fs, fate.resolved).Some?
      then LeaksAt(artifact, NodesAt(fs, fate.resolved).value, ceiling, Some((name, fate.resolved)))
      else multiset{}
  }

  ghost function DepLines(fs: Fs, roots: Roots, provided: set<string>, artifact: Path,
          info: Info): Loc -> multiset<Line>
  {
    (name: Loc) => LineOfFate(artifact, name, FateOf(fs, roots, provided, artifact, info, name))
  }

  ghost function DepReasons(fs: Fs, roots: Roots, provided: set<string>, artifact: Path,
          info: Info): Loc -> multiset<Reason>
  {
    (name: Loc) => ReasonOfFate(FateOf(fs, roots, provided, artifact, info, name))
  }

  ghost function EntryLeaks(fs: Fs, roots: Roots, ceiling: Version): Path -> multiset<Leak> {
    (e: Path) => match Dynamic(fs, e)
      case None => multiset{}
      case Some(info) =>
        LeaksAt(e, info.nodes, ceiling, None) + Gather(DepLeaks(fs, roots, ceiling, e, info), info.needed)
  }

  ghost function EntryLines(fs: Fs, roots: Roots, provided: set<string>): Path -> multiset<Line> {
    (e: Path) => match Dynamic(fs, e)
      case None => if !fs.isLink(e) && fs.isElf(e) && fs.read(e) == None then multiset{CannotRead(e)} else multiset{}
      case Some(info) => Gather(DepLines(fs, roots, provided, e, info), info.needed)
  }

  ghost function EntryReasons(fs: Fs, roots: Roots, provided: set<string>): Path -> multiset<Reason> {
    (e: Path) => match Dynamic(fs, e)
      case None => multiset{}
      case Some(info) => Gather(DepReasons(fs, roots, provided, e, info), info.needed)
  }

  ghost function EntryScanned(fs: Fs): Path -> multiset<Path> {
    (e: Path) => if Dynamic(fs, e).Some? then multiset{e} else multiset{}
  }

  // ----------------------------------------------------------------------------- the walk

  /** Finished lines and, among them, dependencies held back until the walk is over. */
  datatype Pending = Message(line: Line) | Held(artifact: Path, name: Loc, info: Info)

  ghost function PendingLines(fs: Fs, provided: set<string>): Pending -> multiset<Line> {
    (item: Pending) => match item
      case Message(line) => multiset{line}
      case Held(artifact, name, info) =>
        if UncheckedReason(fs, artifact, name, info, provided).None?
        then multiset{DeclaresNoFile(artifact, name)}
        else multiset{}
  }

  ghost function PendingReasons(fs: Fs, provided: set<string>): Pending -> multiset<Reason> {
    (item: Pending) => match item
      case Message(_) => multiset{}
      case Held(artifact, name, info) =>
        match UncheckedReason(fs, artifact, name, info, provided)
        case Some(reason) => multiset{reason}
        case None => multiset{}
  }

  /** Cached results are what reading again would give. */
  ghost predicate CacheOk(fs: Fs, cache: map<Path, Option<set<string>>>) {
    forall p | p in cache :: cache[p] == NodesAt(fs, p)
  }

  method LeaksFrom(artifact: Path, nodes: set<string>, ceiling: Version, via: Option<(Loc, Path)>)
    returns (leaks: seq<Leak>)
    ensures multiset(leaks) == LeaksAt(artifact, nodes, ceiling, via)
  {
    var above := NodesAbove(nodes, ceiling);
    leaks := seq(|above|, i requires 0 <= i < |above| => Leak(artifact, above[i], via));
    LeaksOfNodes(artifact, AboveSet(nodes, ceiling), via, above, leaks);
  }

  lemma SetOfLeaks(artifact: Path, nodes: set<string>, via: Option<(Loc, Path)>, node: string)
    requires node in nodes
    ensures multiset(set n | n in nodes :: Leak(artifact, n, via)) ==
            multiset(set n | n in nodes - {node} :: Leak(artifact, n, via)) + multiset{Leak(artifact, node, via)}
  {
    var fewer := set n | n in nodes - {node} :: Leak(artifact, n, via);
    assert (set n | n in nodes :: Leak(artifact, n, via)) == fewer + {Leak(artifact, node, via)};
    assert Leak(artifact, node, via) !in fewer;
  }

  lemma LessOne<T>(front: seq<T>, last: T, all: set<T>)
    requires multiset(front + [last]) == multiset(all)
    ensures last in all && multiset(front) == multiset(all - {last})
  {
    assert last in multiset(front + [last]);
    assert multiset(front) == multiset(all) - multiset{last};
  }

  lemma {:induction false} LeaksOfNodes(artifact: Path, nodes: set<string>, via: Option<(Loc, Path)>,
          above: seq<string>, leaks: seq<Leak>)
    requires multiset(above) == multiset(nodes) && |leaks| == |above|
    requires forall i | 0 <= i < |above| :: leaks[i] == Leak(artifact, above[i], via)
    ensures multiset(leaks) == multiset(set n | n in nodes :: Leak(artifact, n, via))
    decreases |above|
  {
    if above == [] {
      assert |nodes| == |multiset(nodes)| == 0;
      assert leaks == [];
    } else {
      var last, front, rest := above[|above| - 1], above[..|above| - 1], leaks[..|leaks| - 1];
      assert above == front + [last] && leaks == rest + [Leak(artifact, last, via)];
      LessOne(front, last, nodes);
      LeaksOfNodes(artifact, nodes - {last}, via, front, rest);
      SetOfLeaks(artifact, nodes, via, last);
    }
  }

  /** The declared dependencies of one artifact. `all` is the provider index the finished
      walk will have; nothing here depends on it being known. */
  method ScanDependencies(fs: Fs, roots: Roots, ceiling: Version, artifact: Path, info: Info,
          before: map<Path, Option<set<string>>>, ghost all: set<string>)
    returns (leaks: seq<Leak>, pending: seq<Pending>, cache: map<Path, Option<set<string>>>)
    requires CacheOk(fs, before)
    ensures CacheOk(fs, cache)
    ensures multiset(leaks) == Gather(DepLeaks(fs, roots, ceiling, artifact, info), info.needed)
    ensures Gather(PendingLines(fs, all), pending) == Gather(DepLines(fs, roots, all, artifact, info), info.needed)
    ensures Gather(PendingReasons(fs, all), pending) == Gather(DepReasons(fs, roots, all, artifact, info), info.needed)
  {
    leaks, pending, cache := [], [], before;
    ghost var f, g, h := DepLeaks(fs, roots, ceiling, artifact, info), DepLines(fs, roots, all, artifact, info),
        DepReasons(fs, roots, all, artifact, info);
    for i := 0 to |info.needed|
      invariant CacheOk(fs, cache)
      invariant multiset(leaks) == Gather(f, info.needed[..i])
      invariant Gather(PendingLines(fs, all), pending) == Gather(g, info.needed[..i])
      invariant Gather(PendingReasons(fs, all), pending) == Gather(h, info.needed[..i])
    {
      var found, items: seq<Pending>;
      found, items, cache := ScanDependency(fs, roots, ceiling, artifact, info, info.needed[i], cache, all);
      GatherMore(f, info.needed, i, leaks, found);
      GatherMoreVia(g, info.needed, i, PendingLines(fs, all), pending, items);
      GatherMoreVia(h, info.needed, i, PendingReasons(fs, all), pending, items);
      leaks, pending := leaks + found, pending + items;
    }
    assert info.needed[..|info.needed|] == info.needed;
  }

  /** What is put aside for one dependency. */
  function ItemsOf(fs: Fs, roots: Roots, artifact: Path, info: Info, name: Loc): seq<Pending> {
    match Resolved(fs, roots.permitted, name, info.runpaths + roots.host)
    case (Some(p), _) =>
      if !Within(p, roots.sanctioned) && NodesAt(fs, p).None?
      then [Message(DeclaresUnreadable(artifact, name, p))]
      else []
    case (None, true) => [Message(DeclaresOutOfScope(artifact, name))]
    case (None, false) => [Held(artifact, name, info)]
  }

  lemma HeldGivesLine(fs: Fs, roots: Roots, artifact: Path, info: Info, name: Loc, provided: set<string>)
    requires Resolved(fs, roots.permitted, name, info.runpaths + roots.host) == (None, false)
    ensures PendingLines(fs, provided)(Held(artifact, name, info)) ==
              DepLines(fs, roots, provided, artifact, info)(name)
  {
  }

  lemma ItemsGiveLines(fs: Fs, roots: Roots, artifact: Path, info: Info, name: Loc, provided: set<string>)
    ensures Gather(PendingLines(fs, provided), ItemsOf(fs, roots, artifact, info, name)) ==
            DepLines(fs, roots, provided, artifact, info)(name)
  {
    match Resolved(fs, roots.permitted, name, info.runpaths + roots.host)
    case (Some(p), _) =>
      if !Within(p, roots.sanctioned) && NodesAt(fs, p).None? {
        GatherOne(PendingLines(fs, provided), Message(DeclaresUnreadable(artifact, name, p)));
      }
    case (None, true) => GatherOne(PendingLines(fs, provided), Message(DeclaresOutOfScope(artifact, name)));
    case (None, false) =>
      GatherOne(PendingLines(fs, provided), Held(artifact, name, info));
      HeldGivesLine(fs, roots, artifact, info, name, provided);
  }

  lemma ItemsGiveReasons(fs: Fs, roots: Roots, artifact: Path, info: Info, name: Loc, provided: set<string>)
    ensures Gather(PendingReasons(fs, provided), ItemsOf(fs, roots, artifact, info, name)) ==
            DepReasons(fs, roots, provided, artifact, info)(name)
  {
    match Resolved(fs, roots.permitted, name, info.runpaths + roots.host)
    case (Some(p), _) =>
      if !Within(p, roots.sanctioned) && NodesAt(fs, p).None? {
        GatherOne(PendingReasons(fs, provided), Message(DeclaresUnreadable(artifact, name, p)));
      }
    case (None, true) => GatherOne(PendingReasons(fs, provided), Message(DeclaresOutOfScope(artifact, name)));
    case (None, false) => GatherOne(PendingReasons(fs, provided), Held(artifact, name, info));
  }

  /** Reads a dependency's nodes, unless a result for its path is kept already. */
  method ReadCached(fs: Fs, resolved: Path, before: map<Path, Option<set<string>>>)
    returns (nodes: Option<set<string>>, cache: map<Path, Option<set<string>>>)
    requires CacheOk(fs, before)
    ensures CacheOk(fs, cache) && nodes == NodesAt(fs, resolved)
  {
    cache := before;
    if resolved !in cache {
      var dep := fs.read(resolved);
      cache := cache[resolved := if dep.Some? then Some(dep.value.nodes) else None];
    }
    nodes := cache[resolved];
  }

  lemma LeaksOfDependency(fs: Fs, roots: Roots, ceiling: Version, artifact: Path, info: Info, name: Loc)
    ensures DepLeaks(fs, roots, ceiling, artifact, info)(name) ==
            match Resolved(fs, roots.permitted, name, info.runpaths + roots.host).0
            case None => multiset{}
            case Some(p) =>
              if Within(p, roots.sanctioned) || NodesAt(fs, p).None? then multiset{}
              else LeaksAt(artifact, NodesAt(fs, p).value, ceiling, Some((name, p)))
  {
  }

  /** One declared dependency: resolved inside the roots, read at most once per path. */
  method ScanDependency(fs: Fs, roots: Roots, ceiling: Version, artifact: Path, info: Info, name: Loc,
          before: map<Path, Option<set<string>>>, ghost all: set<string>)
    returns (leaks: seq<Leak>, items: seq<Pending>, cache: map<Path, Option<set<string>>>)
    requires CacheOk(fs, before)
    ensures CacheOk(fs, cache)
    ensures multiset(leaks) == DepLeaks(fs, roots, ceiling, artifact, info)(name)
    ensures Gather(PendingLines(fs, all), items) == DepLines(fs, roots, all, artifact, info)(name)
    ensures Gather(PendingReasons(fs, all), items) == DepReasons(fs, roots, all, artifact, info)(name)
  {
    leaks, items, cache := [], [], before;
    ItemsGiveLines(fs, roots, artifact, info, name, all);
    ItemsGiveReasons(fs, roots, artifact, info, name, all);
    var dependency, refused := ResolveNeeded(fs, name, info.runpaths + roots.host, roots.permitted);
    LeaksOfDependency(fs, roots, ceiling, artifact, info, name);
    if dependency.None? {
      if refused {
        items := [Message(DeclaresOutOfScope(artifact, name))];
      } else {
        items := [Held(artifact, name, info)];
      }
    } else if !Within(dependency.value, roots.sanctioned) {
      var resolved := dependency.value;
      var nodes: Option<set<string>>;
      nodes, cache := ReadCached(fs, resolved, cache);
      if nodes.None? {
        items := [Message(DeclaresUnreadable(artifact, name, resolved))];
      } else {
        leaks := LeaksFrom(artifact, nodes.value, ceiling, Some((name, resolved)));
      }
    }
  }

  /** The counts per reason are those of a collection of reasons. */
  ghost predicate Tallied(excluded: map<Reason, nat>, reasons: multiset<Reason>) {
    forall r :: (if r in excluded then excluded[r] else 0) == reasons[r]
  }

  /** `excluded[reason] = excluded.get(reason, 0) + 1`, when there is a reason. */
  function Bump(excluded: map<Reason, nat>, reason: Option<Reason>): map<Reason, nat> {
    match reason
    case None => excluded
    case Some(r) => excluded[r := (if r in excluded then excluded[r] else 0) + 1]
  }

  lemma TallyMore(f: Pending -> multiset<Reason>, pending: seq<Pending>, i: nat, excluded: map<Reason, nat>,
          reason: Option<Reason>)
    requires i < |pending| && Tallied(excluded, Gather(f, pending[..i]))
    requires f(pending[i]) == if reason.Some? then multiset{reason.value} else multiset{}
    ensures Tallied(Bump(excluded, reason), Gather(f, pending[..i + 1]))
  {
    assert pending[..i + 1][..i] == pending[..i];
  }

  /** One held-back item, with the finished index. */
  method Classify(fs: Fs, item: Pending, provided: set<string>) returns (lines: seq<Line>, reason: Option<Reason>)
    ensures multiset(lines) == PendingLines(fs, provided)(item)
    ensures PendingReasons(fs, provided)(item) == if reason.Some? then multiset{reason.value} else multiset{}
  {
    match item
    case Message(line) => return [line], None;
    case Held(artifact, name, info) =>
      reason := UncheckedReason(fs, artifact, name, info, provided);
      lines := if reason.Some? then [] else [DeclaresNoFile(artifact, name)];
  }

  /** Turns what was held back into lines or counted exclusions, once the index is complete. */
  method Settle(fs: Fs, pending: seq<Pending>, provided: set<string>)
    returns (unresolved: seq<Line>, excluded: map<Reason, nat>)
    ensures multiset(unresolved) == Gather(PendingLines(fs, provided), pending)
    ensures Tallied(excluded, Gather(PendingReasons(fs, provided), pending))
  {
    unresolved, excluded := [], map[];
    ghost var g, h := PendingLines(fs, provided), PendingReasons(fs, provided);
    for i := 0 to |pending|
      invariant multiset(unresolved) == Gather(g, pending[..i])
      invariant Tallied(excluded, Gather(h, pending[..i]))
    {
      var lines, reason := Classify(fs, pending[i], provided);
      TallyMore(h, pending, i, excluded, reason);
      GatherMore(g, pending, i, unresolved, lines);
      unresolved, excluded := unresolved + lines, Bump(excluded, reason);
    }
    assert pending[..|pending|] == pending;
  }

  lemma ProvidedMore(fs: Fs, roots: Roots, entries: seq<Path>, i: nat)
    requires i < |entries|
    ensures AllProvided(fs, roots, entries[..i + 1]) ==
              AllProvided(fs, roots, entries[..i]) + ProvidedBy(fs, roots, entries[i])
  {
    assert entries[..i + 1][..i] == entries[..i];
  }

  /** The walk itself, over the files of the tree in the order it meets them. */
  method WalkTree(fs: Fs, roots: Roots, ceiling: Version, entries: seq<Path>, ghost all: set<string>)
    returns (leaks: seq<Leak>, pending: seq<Pending>, scanned: nat, provided: set<string>)
    requires forall i | 0 <= i < |entries| :: entries[i] != []
    ensures provided == AllProvided(fs, roots, entries)
    ensures multiset(leaks) == Gather(EntryLeaks(fs, roots, ceiling), entries)
    ensures Gather(PendingLines(fs, all), pending) == Gather(EntryLines(fs, roots, all), entries)
    ensures Gather(PendingReasons(fs, all), pending) == Gather(EntryReasons(fs, roots, all), entries)
    ensures scanned == |Gather(EntryScanned(fs), entries)|
  {
    leaks, pending, scanned, provided := [], [], 0, {};
    ghost var f, g, h := EntryLeaks(fs, roots, ceiling), EntryLines(fs, roots, all), EntryReasons(fs, roots, all);
    var cache: map<Path, Option<set<string>>> := map[];
    for i := 0 to |entries|
      invariant CacheOk(fs, cache) && provided == AllProvided(fs, roots, entries[..i])
      invariant multiset(leaks) == Gather(f, entries[..i])
      invariant Gather(PendingLines(fs, all), pending) == Gather(g, entries[..i])
      invariant Gather(PendingReasons(fs, all), pending) == Gather(h, entries[..i])
      invariant scanned == |Gather(EntryScanned(fs), entries[..i])|
    {
      var name, found, items, counted: nat;
      name, found, items, counted, cache := ScanEntry(fs, roots, ceiling, entries[i], cache, all);
      ProvidedMore(fs, roots, entries, i);
      GatherCount(EntryScanned(fs), entries, i);
      GatherMore(f, entries, i, leaks, found);
      GatherMoreVia(g, entries, i, PendingLines(fs, all), pending, items);
      GatherMoreVia(h, entries, i, PendingReasons(fs, all), pending, items);
      provided, leaks, pending, scanned := provided + name, leaks + found, pending + items, scanned + counted;
    }
    assert entries[..|entries|] == entries;
  }

  /** The whole scan: the walk, then the classification of what it held back. */
  method ScanNativeTree(fs: Fs, roots: Roots, ceiling: Version, entries: seq<Path>)
    returns (leaks: seq<Leak>, unresolved: seq<Line>, scanned: nat, excluded: map<Reason, nat>)
    requires forall i | 0 <= i < |entries| :: entries[i] != []
    ensures multiset(leaks) == Gather(EntryLeaks(fs, roots, ceiling), entries)
    ensures multiset(unresolved) == Gather(EntryLines(fs, roots, AllProvided(fs, roots, entries)), entries)
    ensures scanned == |Gather(EntryScanned(fs), entries)|
    ensures Tallied(excluded, Gather(EntryReasons(fs, roots, AllProvided(fs, roots, entries)), entries))
  {
    var pending: seq<Pending>, provided: set<string>;
    leaks, pending, scanned, provided := WalkTree(fs, roots, ceiling, entries, AllProvided(fs, roots, entries));
    unresolved, excluded := Settle(fs, pending, provided);
  }

  /** One file met by the walk. */
  method ScanEntry(fs: Fs, roots: Roots, ceiling: Version, artifact: Path, before: map<Path, Option<set<string>>>,
          ghost all: set<string>)
    returns (name: set<string>, leaks: seq<Leak>, items: seq<Pending>, counted: nat,
          cache: map<Path, Option<set<string>>>)
    requires artifact != [] && CacheOk(fs, before)
    ensures CacheOk(fs, cache) && name == ProvidedBy(fs, roots, artifact)
    ensures multiset(leaks) == EntryLeaks(fs, roots, ceiling)(artifact)
    ensures Gather(PendingLines(fs, all), items) == EntryLines(fs, roots, all)(artifact)
    ensures Gather(PendingReasons(fs, all), items) == EntryReasons(fs, roots, all)(artifact)
    ensures counted == |EntryScanned(fs)(artifact)|
  {
    name, leaks, items, counted, cache := {}, [], [], 0, before;
    if fs.isLink(artifact) {
      var target := fs.realpath(Loc(true, artifact));
      if Within(target, roots.work) && fs.isElf(target) {
        name := {Last(artifact)};
      }
      return;
    }
    if !fs.isElf(artifact) {
      return;
    }
    name := {Last(artifact)};
    var read := fs.read(artifact);
    if read.None? {
      items := [Message(CannotRead(artifact))];
      assert items[..0] == [];
      return;
    }
    var info := read.value;
    if !info.dynamic {
      return;
    }
    counted := 1;
    var own := LeaksFrom(artifact, info.nodes, ceiling, None);
    var found: seq<Leak>;
    found, items, cache := ScanDependencies(fs, roots, ceiling, artifact, info, before, all);
    leaks := own + found;
  }

  // ------------------------------------------------------------ what the scan guarantees

  lemma {:induction false} ProvidedExact(fs: Fs, roots: Roots, entries: seq<Path>, name: string)
    ensures name in AllProvided(fs, roots, entries) <==>
            exists i | 0 <= i < |entries| :: name in ProvidedBy(fs, roots, entries[i])
  {
    if entries != [] {
      var front := entries[..|entries| - 1];
      ProvidedExact(fs, roots, front, name);
      if i :| 0 <= i < |entries| && name in ProvidedBy(fs, roots, entries[i]) {
        assert i == |front| || front[i] == entries[i];
      }
      if i :| 0 <= i < |front| && name in ProvidedBy(fs, roots, front[i]) {
        assert front[i] == entries[i];
      }
    }
  }

  lemma ProvidedInOneOrder(fs: Fs, roots: Roots, first: seq<Path>, second: seq<Path>)
    requires multiset(first) == multiset(second)
    ensures AllProvided(fs, roots, first) <= AllProvided(fs, roots, second)
  {
    forall name | name in AllProvided(fs, roots, first) ensures name in AllProvided(fs, roots, second) {
      ProvidedExact(fs, roots, first, name);
      ProvidedExact(fs, roots, second, name);
      var i :| 0 <= i < |first| && name in ProvidedBy(fs, roots, first[i]);
      assert first[i] in multiset(second);
      var j :| 0 <= j < |second| && second[j] == first[i];
    }
  }

  /** The walk order changes nothing: two walks over the same files, in any two orders, give
      the same leaks and lines as collections, the same count of artifacts, and the same
      tallies, although results are cached and classification waits for the index. */
  lemma OrderIndependent(fs: Fs, roots: Roots, ceiling: Version, first: seq<Path>, second: seq<Path>)
    requires multiset(first) == multiset(second)
    ensures AllProvided(fs, roots, first) == AllProvided(fs, roots, second)
    ensures Gather(EntryLeaks(fs, roots, ceiling), first) == Gather(EntryLeaks(fs, roots, ceiling), second)
    ensures Gather(EntryLines(fs, roots, AllProvided(fs, roots, first)), first) ==
            Gather(EntryLines(fs, roots, AllProvided(fs, roots, second)), second)
    ensures Gather(EntryReasons(fs, roots, AllProvided(fs, roots, first)), first) ==
            Gather(EntryReasons(fs, roots, AllProvided(fs, roots, second)), second)
    ensures Gather(EntryScanned(fs), first) == Gather(EntryScanned(fs), second)
  {
    ProvidedInOneOrder(fs, roots, first, second);
    ProvidedInOneOrder(fs, roots, second, first);
    var all := AllProvided(fs, roots, first);
    GatherPermuted(EntryLeaks(fs, roots, ceiling), first, second);
    GatherPermuted(EntryLines(fs, roots, all), first, second);
    GatherPermuted(EntryReasons(fs, roots, all), first, second);
    GatherPermuted(EntryScanned(fs), first, second);
  }

  /** A dependency settled without a word: in a sanctioned root, or read. */
  ghost function DepQuiet(fs: Fs, roots: Roots, artifact: Path, info: Info): Loc -> multiset<(Path, Loc)> {
    (name: Loc) =>
      var fate := FateOf(fs, roots, {}, artifact, info, name);
      if fate.Sanctioned? || fate.ReadAt? then multiset{(artifact, name)} else multiset{}
  }

  ghost function EntryQuiet(fs: Fs, roots: Roots): Path -> multiset<(Path, Loc)> {
    (e: Path) => match Dynamic(fs, e)
      case None => multiset{}
      case Some(info) => Gather(DepQuiet(fs, roots, e, info), info.needed)
  }

  /** How many dependencies the dynamic artifacts declare, and how many artifacts are ELF
      files that could not be read at all. */
  function Declared(fs: Fs, entries: seq<Path>): nat {
    if entries == [] then 0
    else var e := entries[|entries| - 1];
      Declared(fs, entries[..|entries| - 1]) + (match Dynamic(fs, e) case None => 0 case Some(info) => |info.needed|)
  }

  predicate Unread(fs: Fs, e: Path) {
    !fs.isLink(e) && fs.isElf(e) && fs.read(e).None?
  }

  function UnreadCount(fs: Fs, entries: seq<Path>): nat {
    if entries == [] then 0
    else UnreadCount(fs, entries[..|entries| - 1]) + (if Unread(fs, entries[|entries| - 1]) then 1 else 0)
  }

  lemma OneDependencyCounted(fs: Fs, roots: Roots, provided: set<string>, artifact: Path, info: Info, name: Loc)
    ensures |DepQuiet(fs, roots, artifact, info)(name)| + |DepLines(fs, roots, provided, artifact, info)(name)| +
            |DepReasons(fs, roots, provided, artifact, info)(name)| == 1
  {
    FateCounted(artifact, name, FateOf(fs, roots, provided, artifact, info, name));
    QuietWhateverProvided(fs, roots, provided, artifact, info, name);
  }

  lemma QuietWhateverProvided(fs: Fs, roots: Roots, provided: set<string>, artifact: Path, info: Info, name: Loc)
    ensures var fate := FateOf(fs, roots, provided, artifact, info, name);
            var bare := FateOf(fs, roots, {}, artifact, info, name);
            (fate.Sanctioned? <==> bare.Sanctioned?) && (fate.ReadAt? <==> bare.ReadAt?)
  {
  }

  lemma FateCounted(artifact: Path, name: Loc, fate: Fate)
    ensures |LineOfFate(artifact, name, fate)| + |ReasonOfFate(fate)| ==
            if fate.Sanctioned? || fate.ReadAt? then 0 else 1
  {
  }

  lemma {:induction false} DependenciesCounted(fs: Fs, roots: Roots, provided: set<string>, artifact: Path,
          info: Info, names: seq<Loc>)
    ensures |Gather(DepQuiet(fs, roots, artifact, info), names)| +
            |Gather(DepLines(fs, roots, provided, artifact, info), names)| +
            |Gather(DepReasons(fs, roots, provided, artifact, info), names)| == |names|
  {
    if names != [] {
      DependenciesCounted(fs, roots, provided, artifact, info, names[..|names| - 1]);
      OneDependencyCounted(fs, roots, provided, artifact, info, names[|names| - 1]);
    }
  }

  /** Nothing is lost and nothing is counted twice: the dependencies settled quietly, the
      lines and the exclusions together number the declared dependencies, and one line more
      for each file that could not be read. */
  lemma {:induction false} EveryDependencyAccounted(fs: Fs, roots: Roots, provided: set<string>, entries: seq<Path>)
    ensures |Gather(EntryQuiet(fs, roots), entries)| + |Gather(EntryLines(fs, roots, provided), entries)| +
            |Gather(EntryReasons(fs, roots, provided), entries)| == Declared(fs, entries) + UnreadCount(fs, entries)
  {
    if entries != [] {
      var e := entries[|entries| - 1];
      EveryDependencyAccounted(fs, roots, provided, entries[..|entries| - 1]);
      if Dynamic(fs, e).Some? {
        var info := Dynamic(fs, e).value;
        DependenciesCounted(fs, roots, provided, e, info, info.needed);
      }
    }
  }

  /** A dependency the confinement refused is always reported as out of scope, whatever the
      index holds: it is never excluded. */
  lemma RefusedIsNeverExcluded(fs: Fs, roots: Roots, provided: set<string>, artifact: Path, info: Info, name: Loc)
    requires NoneFound(fs, roots.permitted, name, info.runpaths + roots.host)
    requires SomeRefused(fs, roots.permitted, name, info.runpaths + roots.host)
    ensures DepLines(fs, roots, provided, artifact, info)(name) == multiset{DeclaresOutOfScope(artifact, name)}
    ensures DepReasons(fs, roots, provided, artifact, info)(name) == multiset{}
  {
    ResolvedExact(fs, roots.permitted, name, info.runpaths + roots.host);
  }

  lemma {:induction false} GatherHolds<T, U>(f: T -> multiset<U>, xs: seq<T>, i: nat)
    requires i < |xs|
    ensures f(xs[i]) <= Gather(f, xs)
  {
    if i < |xs| - 1 {
      GatherHolds(f, xs[..|xs| - 1], i);
    }
  }

  /** The scan looked at a file itself: its version nodes were held against the ceiling, or a
      line says it could not be read, or it has no dynamic section and so no such nodes. */
  ghost predicate LookedAt(fs: Fs, roots: Roots, ceiling: Version, entries: seq<Path>, file: Path) {
    fs.isElf(file) && !fs.isLink(file) &&
    match fs.read(file)
    case Some(info) =>
      info.dynamic ==> LeaksAt(file, info.nodes, ceiling, None) <= Gather(EntryLeaks(fs, roots, ceiling), entries)
    case None => CannotRead(file) in Gather(EntryLines(fs, roots, AllProvided(fs, roots, entries)), entries)
  }

  /** Why an excluded `Provided` dependency loses nothing: when the walk meets every ELF
      file of the tree, the scan looked at a file it met under that name, or behind a link
      of that name. */
  lemma ProvidedIsCovered(fs: Fs, roots: Roots, ceiling: Version, entries: seq<Path>, name: string)
    requires name in AllProvided(fs, roots, entries)
    requires forall i | 0 <= i < |entries| :: entries[i] != []
    requires forall l: Loc :: !fs.isLink(fs.realpath(l))
    requires forall p | Within(p, roots.work) && fs.isElf(p) && !fs.isLink(p) :: p in entries
    ensures exists i, j | 0 <= i < |entries| && 0 <= j < |entries| ::
              Last(entries[i]) == name && (i == j || entries[j] == fs.realpath(Loc(true, entries[i]))) &&
              LookedAt(fs, roots, ceiling, entries, entries[j])
  {
    ProvidedExact(fs, roots, entries, name);
    var i :| 0 <= i < |entries| && name in ProvidedBy(fs, roots, entries[i]);
    var file := if fs.isLink(entries[i]) then fs.realpath(Loc(true, entries[i])) else entries[i];
    assert file in entries;
    var j :| 0 <= j < |entries| && entries[j] == file && (!fs.isLink(entries[i]) ==> j == i);
    EntryLookedAt(fs, roots, ceiling, entries, j);
  }

  lemma EntryLookedAt(fs: Fs, roots: Roots, ceiling: Version, entries: seq<Path>, j: nat)
    requires j < |entries| && fs.isElf(entries[j]) && !fs.isLink(entries[j])
    ensures LookedAt(fs, roots, ceiling, entries, entries[j])
  {
    var file := entries[j];
    if fs.read(file).Some? {
      GatherHolds(EntryLeaks(fs, roots, ceiling), entries, j);
      OwnLeaksFound(fs, roots, ceiling, file);
    } else {
      GatherHolds(EntryLines(fs, roots, AllProvided(fs, roots, entries)), entries, j);
    }
  }

  lemma OwnLeaksFound(fs: Fs, roots: Roots, ceiling: Version, file: Path)
    ensures Dynamic(fs, file).Some? ==>
              LeaksAt(file, Dynamic(fs, file).value.nodes, ceiling, None) <= EntryLeaks(fs, roots, ceiling)(file)
  {
  }
}
