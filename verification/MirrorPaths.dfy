/** Where a mirror may write: repository paths, metadata hrefs and package hrefs,
    each turned into a path below the channel directory or refused
    (`feed_mirror_paths.py`). */
module MirrorPaths {
  import opened Base
  import opened Segments

  const POOL := "_pkgs"
  const SNAPSHOTS := "snapshots"
  const REPODATA := "repodata"
  const REPOMD := "repomd.xml"
  const SIGNATURE := "repomd.xml.asc"
  const KEY := "repomd.xml.key"
  const MARKER := ".bakar-mirror.json"
  const LATEST := "snapshots-latest.json"
  const PART := ".part"
  const RPM := ".rpm"

  datatype RepoRefusal = EmptyRepo | RepoNulOrBackslash | AbsoluteRepo | RepoDotSegment | ReservedRoot

  datatype MetaRefusal = MetaNulOrBackslash | NotUnderRepodata | NotOneFile | PublishedByMirror

  datatype Refusal =
    | CarriesXmlBase
    | EmptyOrNulOrBackslash
    | AbsoluteHref
    | HasUrlScheme
    | EmptySegment
    | NotAnRpm
    | BadRepo(why: RepoRefusal)
    | EscapesChannel
    | LandsInRepodata
    | OutsideRepo

  predicate NulOrBackslash(s: string) {
    '\0' in s || '\\' in s
  }

  function ValidateRepoPath(path: string): Result<string, RepoRefusal> {
    if path == "" then Err(EmptyRepo)
    else if NulOrBackslash(path) then Err(RepoNulOrBackslash)
    else if path[0] == SLASH then Err(AbsoluteRepo)
    else if exists seg | seg in Split(path) :: !IsName(seg) then Err(RepoDotSegment)
    else if Split(path)[0] == POOL || Split(path)[0] == SNAPSHOTS then Err(ReservedRoot)
    else Ok(path)
  }

  predicate RepoOk(repo: string) {
    ValidateRepoPath(repo).Ok?
  }

  /** Splits at the first slash, as `str.partition` does; the flag is false without one. */
  function Partition(s: string): (string, bool, string) {
    if s == "" then ("", false, "")
    else if s[0] == SLASH then ("", true, s[1..])
    else
      var (head, found, tail) := Partition(s[1..]);
      ([s[0]] + head, found, tail)
  }

  function ConfineMetadata(href: string): Result<string, MetaRefusal> {
    if NulOrBackslash(href) then Err(MetaNulOrBackslash)
    else
      var (head, found, name) := Partition(href);
      if head != REPODATA || !found then Err(NotUnderRepodata)
      else if !IsName(name) || SLASH in name then Err(NotOneFile)
      else if name == REPOMD || name == SIGNATURE || name == KEY || EndsWith(name, PART) then Err(PublishedByMirror)
      else Ok(name)
  }

  // ---------------------------------------------------- the scheme test of urlsplit

  function TrimLeadingControls(s: string): string {
    if s != "" && s[0] <= ' ' then TrimLeadingControls(s[1..]) else s
  }

  function DropTabsAndNewlines(s: string): string {
    if s == "" then ""
    else (if s[0] in {'\t', '\r', '\n'} then "" else [s[0]]) + DropTabsAndNewlines(s[1..])
  }

  predicate IsAsciiLetter(c: char) {
    'a' <= c <= 'z' || 'A' <= c <= 'Z'
  }

  predicate IsSchemeChar(c: char) {
    IsAsciiLetter(c) || '0' <= c <= '9' || c in {'+', '-', '.'}
  }

  predicate HasScheme(href: string) {
    var url := DropTabsAndNewlines(TrimLeadingControls(href));
    exists i | 0 < i < |url| :: url[i] == ':' && IsAsciiLetter(url[0]) && forall k | 0 <= k < i :: IsSchemeChar(url[k])
  }

  // ------------------------------------------------------------- package confinement

  predicate InPool(parts: Path) {
    |parts| > 1 && parts[0] == POOL
  }

  /** Strictly inside `repo`'s own directory, and not in its snapshot tree. */
  predicate InRepo(repo: Path, parts: Path) {
    |parts| > |repo| && parts[..|repo|] == repo && parts[|repo|] != SNAPSHOTS
  }

  function ConfinePackage(href: string, repo: string, base: Option<string>): Result<Path, Refusal> {
    if base.Some? then Err(CarriesXmlBase)
    else if href == "" || NulOrBackslash(href) then Err(EmptyOrNulOrBackslash)
    else if href[0] == SLASH then Err(AbsoluteHref)
    else if HasScheme(href) then Err(HasUrlScheme)
    else if "" in Split(href) then Err(EmptySegment)
    else if !EndsWith(href, RPM) then Err(NotAnRpm)
    else match ValidateRepoPath(repo)
      case Err(why) => Err(BadRepo(why))
      case Ok(_) =>
        var repoParts := Parts(repo);
        var normalized := NormRelative(repo + "/" + href);
        if normalized == ".." || StartsWith(normalized, "../") then Err(EscapesChannel)
        else
          var parts := Parts(normalized);
          if REPODATA in parts then Err(LandsInRepodata)
          else if InPool(parts) || InRepo(repoParts, parts) then Ok(parts)
          else Err(OutsideRepo)
  }

  /** The tests a package href must pass before its destination is worked out. */
  ghost predicate HrefSyntax(href: string) {
    && href != "" && !NulOrBackslash(href) && href[0] != SLASH
    && !HasScheme(href) && "" !in Split(href) && EndsWith(href, RPM)
  }

  ghost predicate Lands(repo: Path, dest: Path) {
    REPODATA !in dest && (InPool(dest) || InRepo(repo, dest))
  }

  // ------------------------------------------- section 5.2.4 of RFC 3986, on strings

  function NextSlash(s: string, from: nat): (n: nat)
    requires from <= |s|
    ensures from <= n <= |s|
    decreases |s| - from
  {
    if from == |s| || s[from] == SLASH then from else NextSlash(s, from + 1)
  }

  /** Removes the last segment and the slash before it, if any. */
  function DropLastSegment(output: string): string {
    if output == "" then ""
    else if output[|output| - 1] == SLASH then output[..|output| - 1]
    else DropLastSegment(output[..|output| - 1])
  }

  predicate DotAt(s: string, i: nat) {
    i < |s| && s[i] == '.'
  }

  predicate SlashAt(s: string, i: nat) {
    i < |s| && s[i] == SLASH
  }

  /** The loop of the RFC, rule by rule, from A ("../" and "./") to E (a segment). */
  function RemoveDotSegments(input: string, output: string): string
    decreases |input|
  {
    if input == "" then output
    else if DotAt(input, 0) && DotAt(input, 1) && SlashAt(input, 2) then RemoveDotSegments(input[3..], output)
    else if DotAt(input, 0) && SlashAt(input, 1) then RemoveDotSegments(input[2..], output)
    else if SlashAt(input, 0) && DotAt(input, 1) && SlashAt(input, 2) then RemoveDotSegments(input[2..], output)
    else if SlashAt(input, 0) && DotAt(input, 1) && |input| == 2 then RemoveDotSegments([SLASH], output)
    else if SlashAt(input, 0) && DotAt(input, 1) && DotAt(input, 2) && SlashAt(input, 3) then
      RemoveDotSegments(input[3..], DropLastSegment(output))
    else if SlashAt(input, 0) && DotAt(input, 1) && DotAt(input, 2) && |input| == 3 then
      RemoveDotSegments([SLASH], DropLastSegment(output))
    else if DotAt(input, 0) && (|input| == 1 || (DotAt(input, 1) && |input| == 2)) then output
    else
      var n := NextSlash(input, 1);
      RemoveDotSegments(input[n..], output + input[..n])
  }

  // ---------------------------------------------------------------- repository paths

  lemma RepoSegments(repo: string)
    requires RepoOk(repo)
    ensures AllNames(Split(repo)) && NoSlash(Split(repo)) && Parts(repo) == Split(repo)
    ensures Split(repo)[0] != POOL && Split(repo)[0] != SNAPSHOTS && Join(Split(repo)) == repo
  {
    SplitNoSlash(repo);
    JoinSplit(repo);
    forall k | 0 <= k < |Split(repo)| ensures IsName(Split(repo)[k]) {
      assert Split(repo)[k] in Split(repo);
    }
    DropDotsId(Split(repo));
  }

  /** A repository path is accepted, and handed back unchanged, exactly when it is a list of
      plain names, free of NUL and backslash, whose first name is not reserved. */
  lemma ValidateRepoPathExact(repo: string)
    ensures RepoOk(repo) <==> ValidateRepoPath(repo) == Ok(repo)
    ensures RepoOk(repo) <==> !NulOrBackslash(repo) && AllNames(Split(repo)) && Split(repo)[0] !in {POOL, SNAPSHOTS}
  {
    if RepoOk(repo) {
      RepoSegments(repo);
    }
  }

  lemma {:induction false} PartitionJoins(s: string)
    ensures var (head, found, tail) := Partition(s);
            SLASH !in head && s == (if found then head + [SLASH] + tail else head)
  {
    if s != "" && s[0] != SLASH {
      PartitionJoins(s[1..]);
      assert s == [s[0]] + s[1..];
    }
  }

  /** A metadata href is accepted exactly when it is "repodata/" followed by one
      plain file name that the mirror neither publishes itself nor stages. */
  lemma ConfineMetadataExact(href: string, name: string)
    ensures ConfineMetadata(href) == Ok(name) <==>
            && !NulOrBackslash(href) && href == REPODATA + "/" + name
            && IsName(name) && SLASH !in name
            && name !in {REPOMD, SIGNATURE, KEY} && !EndsWith(name, PART)
  {
    PartitionJoins(href);
    if href == REPODATA + "/" + name {
      var (head, found, tail) := Partition(href);
      SplitAround(REPODATA, name);
      SplitPlain(REPODATA);
      SplitPlain(head);
      assert REPODATA + [SLASH] + name == href;
      if found {
        SplitAround(head, tail);
        assert Split(href) == [REPODATA] + Split(name) == [head] + Split(tail);
        assert Split(href)[0] == REPODATA == head;
        assert href[|head| + 1..] == tail == name;
      }
    }
  }

  // ----------------------------------------------------------------- package hrefs

  /** What the string normalisation of "<repo>/<href>" comes to, in terms of a walk. */
  lemma NormalisedIsWalk(repo: string, href: string)
    requires RepoOk(repo) && "" !in Split(href)
    ensures var n := NormRelative(repo + "/" + href);
            match Walk(Split(repo), Split(href))
            case None => n == ".." || StartsWith(n, "../")
            case Some(p) => n != ".." && !StartsWith(n, "../") && Parts(n) == p && AllNames(p) && NoSlash(p)
  {
    RepoSegments(repo);
    SplitNoSlash(href);
    SplitAround(repo, href);
    assert repo + "/" + href == repo + [SLASH] + href;
    var comps := Split(repo) + Split(href);
    assert NoSlash(comps);
    NormFoldIsWalk([], comps);
    WalkAppend([], Split(repo), Split(href));
    WalkNames([], Split(repo));
    assert [] + Split(repo) == Split(repo);
    NormFoldNoSlash([], comps);
    var folded := NormFold([], comps, false);
    if folded != [] {
      JoinLeadsWithDotDot(folded);
      if Walk(Split(repo), Split(href)).Some? {
        PartsOfJoin(folded);
      }
    } else {
      SplitPlain(".");
      assert ["."][1..] == [];
      assert Parts(".") == [];
    }
  }

  lemma {:induction false} NormFoldNoSlash(stack: Path, comps: Path)
    requires NoSlash(stack) && NoSlash(comps)
    ensures NoSlash(NormFold(stack, comps, false))
    decreases comps
  {
    if comps != [] {
      NormFoldNoSlash(NormStep(stack, comps[0], false), comps[1..]);
    }
  }

  /** The package rule, exactly: the href passes its syntactic tests and the walk
      over its segments from the repository directory stays inside the channel and
      ends in the shared pool or strictly inside the repository. */
  lemma ConfinePackageExact(href: string, repo: string, base: Option<string>, dest: Path)
    ensures ConfinePackage(href, repo, base) == Ok(dest) <==>
            && base == None && HrefSyntax(href) && RepoOk(repo)
            && Walk(Split(repo), Split(href)) == Some(dest) && Lands(Split(repo), dest)
  {
    if RepoOk(repo) && "" !in Split(href) {
      RepoSegments(repo);
      NormalisedIsWalk(repo, href);
    }
  }

  /** In terms of depth alone: an accepted href never climbs above the channel at
      any prefix, and one that climbs is refused for escaping it. */
  lemma EscapeIsRefused(href: string, repo: string)
    requires HrefSyntax(href) && RepoOk(repo)
    ensures ConfinePackage(href, repo, None) == Err(EscapesChannel) <==>
            exists k :: 0 <= k <= |Split(href)| && Depth(|Split(repo)|, Split(href)[..k]) < 0
  {
    NormalisedIsWalk(repo, href);
    WalkStaysInside(Split(repo), Split(href));
  }

  /** Every accepted destination is a plain path: no empty, "." or ".." segment, no
      `repodata`, a name ending in ".rpm", and already in normal form. */
  lemma ConfinedShape(href: string, repo: string, base: Option<string>, dest: Path)
    requires ConfinePackage(href, repo, base) == Ok(dest)
    ensures dest != [] && AllNames(dest) && NoSlash(dest) && REPODATA !in dest && EndsWith(Last(dest), RPM)
    ensures NormRelative(Join(dest)) == Join(dest) && Parts(Join(dest)) == dest
  {
    ConfinePackageExact(href, repo, base, dest);
    NormalisedIsWalk(repo, href);
    SplitSuffix(href, RPM);
    var last := Last(Split(href));
    assert EndsWith(last, RPM);
    assert last != "." && last != ".." && last != "";
    WalkEndsInName(Split(repo), Split(href));
    PartsOfJoin(dest);
    SplitJoin(dest);
    NormFoldNames([], dest, false);
    assert [] + dest == dest;
  }

  // ------------------------------------------------------ agreement with the RFC

  /** "/a/b/c" for [a, b, c]. */
  function Slashed(p: Path): string {
    if p == [] then "" else Slashed(Front(p)) + [SLASH] + Last(p)
  }

  lemma {:induction false} SlashedHead(p: Path)
    requires p != []
    ensures Slashed(p) == [SLASH] + p[0] + Slashed(p[1..])
  {
    if |p| > 1 {
      SlashedHead(Front(p));
      assert Front(p)[1..] == Front(p[1..]);
    } else {
      assert Front(p) == [];
    }
  }

  lemma {:induction false} SlashedIsJoin(p: Path)
    requires p != []
    ensures Slashed(p) == [SLASH] + Join(p)
  {
    SlashedHead(p);
    if |p| > 1 {
      SlashedIsJoin(p[1..]);
    }
  }

  lemma {:induction false} DropLastSegmentOf(out: string, seg: string)
    requires SLASH !in seg
    ensures DropLastSegment(out + [SLASH] + seg) == out
  {
    var s := out + [SLASH] + seg;
    if seg == "" {
      assert s[..|s| - 1] == out;
    } else {
      assert s[|s| - 1] == seg[|seg| - 1] && seg[|seg| - 1] in seg;
      assert s[..|s| - 1] == out + [SLASH] + seg[..|seg| - 1];
      DropLastSegmentOf(out, seg[..|seg| - 1]);
    }
  }

  lemma {:induction false} NextSlashAt(s: string, from: nat, n: nat)
    requires from <= n <= |s|
    requires forall k :: from <= k < n ==> s[k] != SLASH
    requires n == |s| || s[n] == SLASH
    ensures NextSlash(s, from) == n
    decreases n - from
  {
    if from < n {
      NextSlashAt(s, from + 1, n);
    }
  }

  /** The RFC's string rewriting follows the segment walk while the walk stays inside. */
  lemma {:induction false} RemoveDotSegmentsIsWalk(stack: Path, segs: Path)
    requires NoSlash(stack) && NoSlash(segs) && "" !in segs
    requires segs == [] || IsName(Last(segs))
    requires Walk(stack, segs).Some?
    ensures RemoveDotSegments(Slashed(segs), Slashed(stack)) == Slashed(Walk(stack, segs).value)
    decreases segs
  {
    if segs != [] {
      var s, rest := segs[0], segs[1..];
      SlashedHead(segs);
      assert s in segs;
      if s == "." {
        DotSegmentMoves(rest, Slashed(stack));
        RemoveDotSegmentsIsWalk(stack, rest);
      } else if s == ".." {
        DotDotSegmentMoves(rest, Slashed(Front(stack)), Last(stack));
        RemoveDotSegmentsIsWalk(Front(stack), rest);
      } else {
        NamedSegmentMoves(s, rest, Slashed(stack));
        assert Front(stack + [s]) == stack;
        assert Slashed(stack + [s]) == Slashed(stack) + [SLASH] + s;
        RemoveDotSegmentsIsWalk(stack + [s], rest);
      }
    }
  }

  /** Rule B of the RFC: a "." segment disappears. */
  lemma DotSegmentMoves(rest: Path, output: string)
    requires rest != []
    ensures RemoveDotSegments([SLASH] + "." + Slashed(rest), output) == RemoveDotSegments(Slashed(rest), output)
  {
    SlashedHead(rest);
    var input := [SLASH] + "." + Slashed(rest);
    assert SlashAt(input, 0) && DotAt(input, 1) && SlashAt(input, 2);
    assert input[2..] == Slashed(rest);
  }

  /** Rule C of the RFC: a ".." segment takes the last output segment with it. */
  lemma DotDotSegmentMoves(rest: Path, output: string, last: string)
    requires rest != [] && SLASH !in last
    ensures RemoveDotSegments([SLASH] + ".." + Slashed(rest), output + [SLASH] + last) ==
              RemoveDotSegments(Slashed(rest), output)
  {
    SlashedHead(rest);
    DropLastSegmentOf(output, last);
    var input := [SLASH] + ".." + Slashed(rest);
    assert SlashAt(input, 0) && DotAt(input, 1) && DotAt(input, 2) && SlashAt(input, 3);
    assert input[3..] == Slashed(rest);
  }

  /** Rule E, as a rule on strings. */
  lemma SegmentRule(input: string, output: string, n: nat)
    requires 1 < n <= |input| && SlashAt(input, 0)
    requires forall k | 1 <= k < n :: input[k] != SLASH
    requires n < |input| ==> input[n] == SLASH
    requires DotAt(input, 1) ==> n > 2 && (DotAt(input, 2) ==> n > 3)
    ensures RemoveDotSegments(input, output) == RemoveDotSegments(input[n..], output + input[..n])
  {
    NextSlashAt(input, 1, n);
  }

  lemma NamedDots(s: string, tail: string)
    requires IsName(s)
    ensures var input := [SLASH] + s + tail;
            DotAt(input, 1) ==> |s| > 1 && (DotAt(input, 2) ==> |s| > 2)
  {
    assert s[0] == ([SLASH] + s + tail)[1];
    assert |s| > 1 ==> s[1] == ([SLASH] + s + tail)[2];
    assert |s| == 1 ==> s == [s[0]];
    assert |s| == 2 ==> s == [s[0]] + [s[1]];
  }

  lemma NamedSlices(s: string, tail: string)
    requires SLASH !in s && (tail != "" ==> tail[0] == SLASH)
    ensures var (input, n) := ([SLASH] + s + tail, |s| + 1);
            && input[..n] == [SLASH] + s && input[n..] == tail
            && (forall k | 1 <= k < n :: input[k] != SLASH) && (n < |input| ==> input[n] == SLASH)
  {
    var input := [SLASH] + s + tail;
    assert forall k | 1 <= k < |s| + 1 :: input[k] == s[k - 1] && s[k - 1] in s;
  }

  /** Rule E of the RFC: a name moves to the output with its leading slash. */
  lemma NamedSegmentMoves(s: string, rest: Path, output: string)
    requires IsName(s) && SLASH !in s
    ensures RemoveDotSegments([SLASH] + s + Slashed(rest), output) ==
              RemoveDotSegments(Slashed(rest), output + [SLASH] + s)
  {
    if rest != [] {
      SlashedHead(rest);
    }
    NamedRule(s, Slashed(rest), output);
    assert output + ([SLASH] + s) == output + [SLASH] + s;
  }

  lemma NamedRule(s: string, tail: string, output: string)
    requires IsName(s) && SLASH !in s && (tail != "" ==> tail[0] == SLASH)
    ensures RemoveDotSegments([SLASH] + s + tail, output) == RemoveDotSegments(tail, output + ([SLASH] + s))
  {
    NamedDots(s, tail);
    NamedSlices(s, tail);
    SegmentRule([SLASH] + s + tail, output, |s| + 1);
  }

  /** The RFC's result for a repository and a relative path with a walk of its own. */
  lemma RfcFollowsWalk(repo: string, href: string, dest: Path)
    requires RepoOk(repo) && dest != [] && "" !in Split(href) && IsName(Last(Split(href)))
    requires Walk(Split(repo), Split(href)) == Some(dest)
    ensures RemoveDotSegments([SLASH] + (repo + [SLASH] + href), "") == [SLASH] + Join(dest)
  {
    var segs := Split(repo) + Split(href);
    RepoHrefWalk(repo, href, dest);
    RemoveDotSegmentsIsWalk([], segs);
    SplitAround(repo, href);
    SlashedIsJoin(segs);
    JoinSplit(repo + [SLASH] + href);
    SlashedIsJoin(dest);
  }

  /** The walk of repository and path together. */
  lemma RepoHrefWalk(repo: string, href: string, dest: Path)
    requires RepoOk(repo) && "" !in Split(href) && IsName(Last(Split(href)))
    requires Walk(Split(repo), Split(href)) == Some(dest)
    ensures var segs := Split(repo) + Split(href);
            Walk([], segs) == Some(dest) && NoSlash(segs) && "" !in segs && IsName(Last(segs))
  {
    RepoSegments(repo);
    SplitNoSlash(href);
    WalkOn(Split(repo), Split(href));
  }

  lemma WalkOn(names: Path, segs: Path)
    requires AllNames(names)
    ensures Walk([], names + segs) == Walk(names, segs)
  {
    WalkAppend([], names, segs);
    WalkNames([], names);
    assert [] + names == names;
  }

  /** Confinement agrees with dot-segment removal in section 5.2.4 of RFC 3986. */
  lemma ConfinementAgreesWithRfc3986(href: string, repo: string, base: Option<string>, dest: Path)
    requires ConfinePackage(href, repo, base) == Ok(dest)
    ensures RemoveDotSegments("/" + repo + "/" + href, "") == "/" + Join(dest)
  {
    ConfinePackageExact(href, repo, base, dest);
    ConfinedShape(href, repo, base, dest);
    SplitSuffix(href, RPM);
    assert IsName(Last(Split(href))) by { assert EndsWith(Last(Split(href)), RPM); }
    RfcFollowsWalk(repo, href, dest);
    assert "/" + repo + "/" + href == [SLASH] + (repo + [SLASH] + href);
  }
}
