/** Slash-separated strings as sequences of segments, and the two library
    functions the mirror leans on: `posixpath.normpath` and the `parts` of a
    relative `PurePosixPath`. */
module Segments {
  import opened Base

  type Path = seq<string>

  const SLASH := '/'

  /** Python's `str.split(sep)` for a one-character separator: never empty. */
  function Split(s: string): (r: Path)
    ensures |r| >= 1
  {
    if s == "" then [""]
    else if s[0] == SLASH then [""] + Split(s[1..])
    else
      var rest := Split(s[1..]);
      [[s[0]] + rest[0]] + rest[1..]
  }

  /** Python's `sep.join(parts)`. */
  function Join(p: Path): string {
    if p == [] then ""
    else if |p| == 1 then p[0]
    else p[0] + [SLASH] + Join(p[1..])
  }

  ghost predicate NoSlash(p: Path) {
    forall k :: 0 <= k < |p| ==> SLASH !in p[k]
  }

  /** A name: a segment that is neither empty, nor ".", nor "..". */
  predicate IsName(s: string) {
    s != "" && s != "." && s != ".."
  }

  ghost predicate AllNames(p: Path) {
    forall k :: 0 <= k < |p| ==> IsName(p[k])
  }

  predicate StartsWith(s: string, prefix: string) {
    prefix <= s
  }

  predicate EndsWith(s: string, suffix: string) {
    |s| >= |suffix| && s[|s| - |suffix|..] == suffix
  }

  function Last(p: Path): string
    requires p != []
  {
    p[|p| - 1]
  }

  function Front(p: Path): Path
    requires p != []
  {
    p[..|p| - 1]
  }

  /** One step of the component loop of `posixpath.normpath`. */
  function NormStep(stack: Path, comp: string, absolute: bool): Path {
    if comp == "" || comp == "." then stack
    else if comp != ".." || (!absolute && stack == []) || (stack != [] && Last(stack) == "..") then stack + [comp]
    else if stack != [] then Front(stack)
    else stack
  }

  function NormFold(stack: Path, comps: Path, absolute: bool): Path
    decreases comps
  {
    if comps == [] then stack
    else NormFold(NormStep(stack, comps[0], absolute), comps[1..], absolute)
  }

  /** `posixpath.normpath` of a path that does not begin with a slash. */
  function NormRelative(path: string): string {
    var comps := NormFold([], Split(path), false);
    if comps == [] then "." else Join(comps)
  }

  function DropDots(p: Path): Path {
    if p == [] then []
    else (if p[0] == "" || p[0] == "." then [] else [p[0]]) + DropDots(p[1..])
  }

  /** The `parts` of a `PurePosixPath` built from a relative string. */
  function Parts(path: string): Path {
    DropDots(Split(path))
  }

  /** Where a walk over segments stands: None once it has stepped above the root. */
  function Walk(pos: Path, segs: Path): Option<Path>
    decreases segs
  {
    if segs == [] then Some(pos)
    else if segs[0] == "." then Walk(pos, segs[1..])
    else if segs[0] == ".." then if pos == [] then None else Walk(Front(pos), segs[1..])
    else Walk(pos + [segs[0]], segs[1..])
  }

  /** Directory depth reached after `segs`, counting a name up and a ".." down. */
  function Depth(start: int, segs: Path): int
    decreases segs
  {
    if segs == [] then start
    else Depth(if segs[0] == "." then start else if segs[0] == ".." then start - 1 else start + 1, segs[1..])
  }

  // ---------------------------------------------------------------- splitting

  lemma {:induction false} SplitNoSlash(s: string)
    ensures NoSlash(Split(s))
  {
    if s != "" {
      SplitNoSlash(s[1..]);
    }
  }

  lemma {:induction false} JoinSplit(s: string)
    ensures Join(Split(s)) == s
  {
    if s == "" {
    } else if s[0] == SLASH {
      JoinSplit(s[1..]);
      assert ([""] + Split(s[1..]))[1..] == Split(s[1..]);
      assert s == [SLASH] + s[1..];
    } else {
      JoinSplit(s[1..]);
      var rest := Split(s[1..]);
      assert ([[s[0]] + rest[0]] + rest[1..])[1..] == rest[1..];
      assert s == [s[0]] + s[1..];
    }
  }

  /** A slash in the middle is a boundary between the segments on either side. */
  lemma {:induction false} SplitAround(a: string, b: string)
    ensures Split(a + [SLASH] + b) == Split(a) + Split(b)
  {
    var s := a + [SLASH] + b;
    if a == "" {
      assert s[1..] == b;
    } else {
      assert s[0] == a[0] && s[1..] == a[1..] + [SLASH] + b;
      SplitAround(a[1..], b);
      PrependToFirst(a[0], Split(a[1..]), Split(b));
      assert [""] + (Split(a[1..]) + Split(b)) == [""] + Split(a[1..]) + Split(b);
    }
  }

  lemma PrependToFirst(c: char, p: Path, q: Path)
    requires p != []
    ensures [[c] + (p + q)[0]] + (p + q)[1..] == [[c] + p[0]] + p[1..] + q
  {
  }

  lemma {:induction false} SplitPlain(s: string)
    requires SLASH !in s
    ensures Split(s) == [s]
  {
    if s != "" {
      SplitPlain(s[1..]);
      assert s == [s[0]] + s[1..];
    }
  }

  lemma {:induction false} SplitJoin(p: Path)
    requires p != [] && NoSlash(p)
    ensures Split(Join(p)) == p
  {
    if |p| == 1 {
      SplitPlain(p[0]);
    } else {
      SplitJoin(p[1..]);
      SplitPlain(p[0]);
      SplitAround(p[0], Join(p[1..]));
      assert p == [p[0]] + p[1..];
    }
  }

  lemma {:induction false} PartsOfJoin(p: Path)
    requires p != [] && NoSlash(p)
    requires forall k :: 0 <= k < |p| ==> p[k] != "" && p[k] != "."
    ensures Parts(Join(p)) == p
  {
    SplitJoin(p);
    DropDotsId(p);
  }

  lemma {:induction false} DropDotsId(p: Path)
    requires forall k :: 0 <= k < |p| ==> p[k] != "" && p[k] != "."
    ensures DropDots(p) == p
  {
    if p != [] {
      DropDotsId(p[1..]);
      assert p == [p[0]] + p[1..];
    }
  }

  /** A joined path names its parent exactly when its first segment is "..". */
  lemma JoinLeadsWithDotDot(p: Path)
    requires p != [] && NoSlash(p)
    ensures (Join(p) == ".." || StartsWith(Join(p), "../")) <==> p[0] == ".."
  {
    var j := Join(p);
    SplitJoin(p);
    if j == ".." {
      SplitPlain(j);
    } else if StartsWith(j, "../") {
      SplitPlain("..");
      SplitAround("..", j[3..]);
      assert j == ".." + [SLASH] + j[3..];
    }
  }

  /** The last segment of a split string carries any slash-free suffix. */
  lemma SuffixOfTail(s: string, suffix: string)
    requires |s| > |suffix| && EndsWith(s, suffix)
    ensures EndsWith(s[1..], suffix)
  {
    assert s[1..][|s| - 1 - |suffix|..] == s[|s| - |suffix|..];
  }

  lemma SuffixOfLonger(c: char, s: string, suffix: string)
    requires EndsWith(s, suffix)
    ensures EndsWith([c] + s, suffix)
  {
    assert ([c] + s)[|s| + 1 - |suffix|..] == s[|s| - |suffix|..];
  }

  lemma {:induction false} SplitSuffix(s: string, suffix: string)
    requires SLASH !in suffix && EndsWith(s, suffix)
    ensures EndsWith(Last(Split(s)), suffix)
  {
    if |s| > |suffix| {
      SuffixOfTail(s, suffix);
      SplitSuffix(s[1..], suffix);
      SuffixOfLonger(s[0], Split(s[1..])[0], if |Split(s[1..])| == 1 then suffix else "");
    } else {
      assert s == suffix;
      SplitPlain(s);
    }
  }

  // ------------------------------------------------------------- normalising

  lemma {:induction false} NormFoldNames(stack: Path, names: Path, absolute: bool)
    requires AllNames(names)
    ensures NormFold(stack, names, absolute) == stack + names
    decreases names
  {
    if names == [] {
      assert stack + names == stack;
    } else {
      NormFoldNames(stack + [names[0]], names[1..], absolute);
      assert stack + [names[0]] + names[1..] == stack + names;
    }
  }

  /** Once ".." sits at the bottom of the stack it stays there. */
  lemma {:induction false} NormFoldStuck(stack: Path, comps: Path)
    requires stack != [] && stack[0] == ".."
    ensures NormFold(stack, comps, false) != [] && NormFold(stack, comps, false)[0] == ".."
    decreases comps
  {
    if comps != [] {
      NormFoldStuck(NormStep(stack, comps[0], false), comps[1..]);
    }
  }

  /** Normalising is walking: the same end point, or a leading ".." exactly when
      the walk left the root. */
  lemma {:induction false} NormFoldIsWalk(stack: Path, comps: Path)
    requires AllNames(stack) && "" !in comps
    ensures match Walk(stack, comps)
            case Some(p) => NormFold(stack, comps, false) == p && AllNames(p)
            case None => NormFold(stack, comps, false) != [] && NormFold(stack, comps, false)[0] == ".."
    decreases comps
  {
    if comps == [] {
    } else {
      var next := NormStep(stack, comps[0], false);
      assert comps[0] in comps;
      if comps[0] == ".." && stack == [] {
        NormFoldStuck(next, comps[1..]);
      } else {
        assert comps[0] != ".." || Last(stack) != "..";
        NormFoldIsWalk(next, comps[1..]);
      }
    }
  }

  lemma {:induction false} WalkAppend(pos: Path, a: Path, b: Path)
    ensures Walk(pos, a + b) == match Walk(pos, a) case None => None case Some(q) => Walk(q, b)
    decreases a
  {
    if a == [] {
      assert a + b == b;
    } else {
      assert (a + b)[1..] == a[1..] + b;
      if a[0] == "." {
        WalkAppend(pos, a[1..], b);
      } else if a[0] == ".." {
        if pos != [] { WalkAppend(Front(pos), a[1..], b); }
      } else {
        WalkAppend(pos + [a[0]], a[1..], b);
      }
    }
  }

  lemma {:induction false} WalkNames(pos: Path, names: Path)
    requires AllNames(names)
    ensures Walk(pos, names) == Some(pos + names)
    decreases names
  {
    if names == [] {
      assert pos + names == pos;
    } else {
      WalkNames(pos + [names[0]], names[1..]);
      assert pos + [names[0]] + names[1..] == pos + names;
    }
  }

  /** A walk survives exactly when no prefix of it goes below the root. */
  lemma {:induction false} WalkStaysInside(pos: Path, segs: Path)
    ensures Walk(pos, segs).Some? <==> forall k :: 0 <= k <= |segs| ==> Depth(|pos|, segs[..k]) >= 0
    decreases segs
  {
    assert segs[..0] == [];
    if segs != [] {
      var d := if segs[0] == "." then |pos| else if segs[0] == ".." then |pos| - 1 else |pos| + 1;
      forall k | 1 <= k <= |segs| ensures Depth(|pos|, segs[..k]) == Depth(d, segs[1..][..k - 1]) {
        assert segs[..k][1..] == segs[1..][..k - 1];
      }
      if d < 0 {
        assert segs[1..][..0] == [];
        assert Depth(|pos|, segs[..1]) == d;
      } else {
        var next := if segs[0] == "." then pos else if segs[0] == ".." then Front(pos) else pos + [segs[0]];
        WalkStaysInside(next, segs[1..]);
        if forall k :: 0 <= k <= |segs| ==> Depth(|pos|, segs[..k]) >= 0 {
          forall k | 0 <= k <= |segs[1..]| ensures Depth(d, segs[1..][..k]) >= 0 {
            assert Depth(|pos|, segs[..k + 1]) == Depth(d, segs[1..][..k + 1 - 1]);
          }
        }
      }
    }
  }

  /** The end of a walk whose last segment is a name is that name. */
  lemma {:induction false} WalkEndsInName(pos: Path, segs: Path)
    requires segs != [] && IsName(Last(segs)) && Walk(pos, segs).Some?
    ensures Walk(pos, segs).value != [] && Last(Walk(pos, segs).value) == Last(segs)
  {
    var init := Front(segs);
    assert segs == init + [Last(segs)];
    WalkAppend(pos, init, [Last(segs)]);
    var q := Walk(pos, init).value;
    assert [Last(segs)][1..] == [];
    assert Walk(q, [Last(segs)]) == Some(q + [Last(segs)]);
  }
}
