/** Which capture directory belongs to a run (`buildstats.py`): the one named nearest the
    build's start, or, with none named in the window, the only one last changed in it. */
module CaptureSelect {
  import opened Base

  const SLACK: real := 300.0

  /** A capture directory: the time its name spells, if it spells one, and when it was last
      changed, if that can be read. Captures are listed in the order of their names. */
  datatype Capture = Capture(named: Option<real>, changed: Option<real>)

  /** A build, from its start to its end. */
  datatype Build = Build(started: real, completed: real)

  predicate InWindow(b: Build, t: real) {
    b.started - SLACK <= t <= b.completed + SLACK
  }

  predicate NamedMatch(b: Build, c: Capture) {
    c.named.Some? && InWindow(b, c.named.value)
  }

  /** Only a directory named like a capture, but not into the window, is placed by its
      time of change. */
  predicate ChangedMatch(b: Build, c: Capture) {
    c.named.Some? && !InWindow(b, c.named.value) && c.changed.Some? && InWindow(b, c.changed.value)
  }

  function Distance(b: Build, c: Capture): real
    requires c.named.Some?
  {
    if c.named.value >= b.started then c.named.value - b.started else b.started - c.named.value
  }

  /** `k` is named in the window, nearest the start, and first in name among equally near. */
  ghost predicate Nearest(captures: seq<Capture>, b: Build, k: nat) {
    && k < |captures| && NamedMatch(b, captures[k])
    && forall j | 0 <= j < |captures| && NamedMatch(b, captures[j]) ::
         Distance(b, captures[k]) < Distance(b, captures[j]) ||
         (Distance(b, captures[k]) == Distance(b, captures[j]) && k <= j)
  }

  /** `k` is the only capture placed in the window by its time of change, and none is by name. */
  ghost predicate OnlyChanged(captures: seq<Capture>, b: Build, k: nat) {
    && k < |captures| && ChangedMatch(b, captures[k])
    && (forall j | 0 <= j < |captures| :: !NamedMatch(b, captures[j]))
    && (forall j | 0 <= j < |captures| && ChangedMatch(b, captures[j]) :: j == k)
  }

  /** The choice, exactly: it is the nearest by name, or the only one by change, and there is
      none just when neither exists. */
  method SelectCapture(captures: seq<Capture>, b: Build) returns (chosen: Option<nat>)
    ensures forall k: nat :: chosen == Some(k) <==> Nearest(captures, b, k) || OnlyChanged(captures, b, k)
  {
    var named: seq<nat>, changed: seq<nat> := [], [];
    for i := 0 to |captures|
      invariant forall p | 0 <= p < |named| :: named[p] < i && NamedMatch(b, captures[named[p]])
      invariant forall p | 0 <= p < |changed| :: changed[p] < i && ChangedMatch(b, captures[changed[p]])
      invariant forall j | 0 <= j < i && NamedMatch(b, captures[j]) :: j in named
      invariant forall j | 0 <= j < i && ChangedMatch(b, captures[j]) :: j in changed
      invariant forall p, q | 0 <= p < q < |changed| :: changed[p] < changed[q]
    {
      if captures[i].named.Some? {
        if InWindow(b, captures[i].named.value) {
          named := named + [i];
        } else if captures[i].changed.Some? && InWindow(b, captures[i].changed.value) {
          changed := changed + [i];
        }
      }
    }
    if named != [] {
      var best := NearestOf(captures, b, named);
      forall k: nat | Nearest(captures, b, k) ensures k == best {
        assert NamedMatch(b, captures[k]) && NamedMatch(b, captures[best]);
      }
      return Some(best);
    }
    assert forall j | 0 <= j < |captures| :: !NamedMatch(b, captures[j]);
    if |changed| == 1 {
      return Some(changed[0]);
    }
    if |changed| > 1 {
      assert changed[0] in changed && changed[1] in changed && changed[0] < changed[1];
    }
    return None;
  }

  /** The least by distance, then by name. */
  method NearestOf(captures: seq<Capture>, b: Build, named: seq<nat>) returns (best: nat)
    requires named != [] && forall p | 0 <= p < |named| :: named[p] < |captures| && NamedMatch(b, captures[named[p]])
    requires forall j | 0 <= j < |captures| && NamedMatch(b, captures[j]) :: j in named
    ensures Nearest(captures, b, best)
  {
    best := named[0];
    for i := 1 to |named|
      invariant best < |captures| && NamedMatch(b, captures[best])
      invariant forall p | 0 <= p < i :: Distance(b, captures[best]) < Distance(b, captures[named[p]]) ||
                  (Distance(b, captures[best]) == Distance(b, captures[named[p]]) && best <= named[p])
    {
      var here, there := Distance(b, captures[named[i]]), Distance(b, captures[best]);
      if here < there || (here == there && named[i] < best) {
        best := named[i];
      }
    }
  }

  /** Every build left one capture, named within `d` of its start, and the captures named
      like captures are just those. */
  ghost predicate Tracked(captures: seq<Capture>, builds: seq<Build>, own: seq<nat>, d: real) {
    && |own| == |builds|
    && (forall i | 0 <= i < |builds| ::
          own[i] < |captures| && captures[own[i]].named.Some? && Distance(builds[i], captures[own[i]]) <= d &&
          builds[i].started <= builds[i].completed)
    && (forall k | 0 <= k < |captures| && captures[k].named.Some? :: k in own)
  }

  ghost predicate StartsApart(builds: seq<Build>, gap: real) {
    forall i, j | 0 <= i < |builds| && 0 <= j < |builds| && i != j ::
      builds[i].started - builds[j].started > gap || builds[j].started - builds[i].started > gap
  }

  /** Each build gets its own capture: if names are within `d` of the starts, `d` is at most
      the slack, and starts are more than twice `d` apart, then for any number of builds and
      however their windows overlap, the nearest by name is the build's own. */
  lemma EachGetsItsOwn(captures: seq<Capture>, builds: seq<Build>, own: seq<nat>, d: real, i: nat)
    requires Tracked(captures, builds, own, d) && d <= SLACK && StartsApart(builds, 2.0 * d) && i < |builds|
    ensures forall k: nat :: Nearest(captures, builds[i], k) || OnlyChanged(captures, builds[i], k) <==> k == own[i]
  {
    var b := builds[i];
    assert NamedMatch(b, captures[own[i]]);
    forall k | 0 <= k < |captures| && captures[k].named.Some? && k != own[i]
      ensures Distance(b, captures[own[i]]) < Distance(b, captures[k])
    {
      var j :| 0 <= j < |own| && own[j] == k;
      FartherThanOwn(b, builds[j], captures[own[i]], captures[k], d);
    }
  }

  lemma FartherThanOwn(b: Build, other: Build, mine: Capture, theirs: Capture, d: real)
    requires mine.named.Some? && theirs.named.Some?
    requires Distance(b, mine) <= d && Distance(other, theirs) <= d
    requires b.started - other.started > 2.0 * d || other.started - b.started > 2.0 * d
    ensures Distance(b, mine) < Distance(b, theirs)
  {
  }

  /** The gap cannot be smaller: at exactly twice `d` two builds can be tracked and the
      later one is given the earlier one's capture. */
  lemma TwiceIsNeeded(d: real) returns (captures: seq<Capture>, builds: seq<Build>, own: seq<nat>)
    requires 0.0 < d <= SLACK
    ensures Tracked(captures, builds, own, d) && |builds| == 2
    ensures builds[1].started - builds[0].started == 2.0 * d
    ensures Nearest(captures, builds[1], own[0]) && own[0] != own[1]
  {
    captures := [Capture(Some(-d), None), Capture(Some(d), None)];
    builds := [Build(-2.0 * d, -d), Build(0.0, d)];
    own := [0, 1];
    assert forall k | 0 <= k < |captures| :: own[k] == k;
  }
}
