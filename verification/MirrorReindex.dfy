/** When fetching the metadata files of an index is safe: for the index already published, and
    for an index that names a file more than once. Both exactly. */
module MirrorReindex {
  import opened Base
  import opened Segments
  import opened MirrorPaths
  import opened MirrorPlan
  import opened MirrorRun
  import opened MirrorSafety
  import opened MirrorOwnership
  import opened MirrorProgress
  import opened MirrorMetadata

  /** Steps that do no more than fetch the metadata files of one repository. */
  ghost predicate MetaSteps(actions: seq<Action>) {
    forall a | a in actions :: a.StageMeta? || a.DropMeta? || a.PlaceMeta? || a.Abort?
  }

  ghost predicate AtEntry(w: World, next: nat, n: nat) {
    && w.run.phase == Planning(next) && next < |w.run.selected|
    && w.run.fetching.Some? && w.run.fetching.value.placed == n <= |w.run.fetching.value.entries|
  }

  /** The next entry is placed with given bytes. */
  lemma PlaceNext(env: Env, w: World, next: nat, n: nat, body: Bytes, e: MetaEntry)
    returns (actions: seq<Action>, w': World)
    requires AtEntry(w, next, n) && n < |w.run.fetching.value.entries| && Plain(e)
    requires Plain(w.run.fetching.value.entries[n]) && Accepts(env, w.run.fetching.value.entries[n], body)
    ensures w' == Exec(env, w, actions) && MetaSteps(actions) && w'.authors == w.authors
    ensures w'.run == w.run.(fetching := Some(w.run.fetching.value.(placed := n + 1)))
    ensures var (q, f) := (w.run.selected[next], w.run.fetching.value.entries[n]);
            && EntryPath(q, f) in w'.files && w'.files[EntryPath(q, f)] == body
            && (NameOf(e) != NameOf(f) ==> Same(w.files, w'.files, EntryPath(q, e)))
  {
    var q, f := w.run.selected[next], w.run.fetching.value.entries[n];
    MetaIsPlaced(env, w, next, NameOf(f), body);
    ExecTwo(env, w, StageMeta(body), PlaceMeta);
    EntryNotStaging(q, e, EntryPath(q, f));
    if EntryPath(q, e) == EntryPath(q, f) {
      MetaPathInjective(q, NameOf(e), q, NameOf(f));
    }
    actions, w' := [StageMeta(body), PlaceMeta], WithMeta(env, w, body);
  }

  /** Entries that can be served are placed one after the other, and a file of another name
      is left alone. */
  lemma {:induction false} PlaceUpTo(env: Env, w: World, next: nat, m: nat, n: nat, e: MetaEntry)
    returns (actions: seq<Action>, w': World)
    requires AtEntry(w, next, m) && m <= n <= |w.run.fetching.value.entries| && Plain(e)
    requires forall k | m <= k < n :: CanBeServed(env, w.run.fetching.value.entries[k])
    ensures w' == Exec(env, w, actions) && MetaSteps(actions) && w'.authors == w.authors
    ensures w'.run == w.run.(fetching := Some(w.run.fetching.value.(placed := n)))
    ensures (forall k | m <= k < n :: NameOf(w.run.fetching.value.entries[k]) != NameOf(e)) ==>
              Same(w.files, w'.files, EntryPath(w.run.selected[next], e))
    decreases n - m
  {
    if m == n {
      actions, w' := [], w;
    } else {
      var body :| Accepts(env, w.run.fetching.value.entries[m], body);
      var first, w1 := PlaceNext(env, w, next, m, body, e);
      var rest;
      rest, w' := PlaceUpTo(env, w1, next, m + 1, n, e);
      ExecAppend(env, w, first, rest);
      actions := first + rest;
    }
  }

  /** Metadata steps stay with the repository and publish nothing. */
  lemma {:induction false} MetaStepsStay(env: Env, w: World, next: nat, actions: seq<Action>)
    requires next < |w.run.selected| && w.run.fetching.Some? && MetaSteps(actions)
    requires w.run.phase == Planning(next) || w.run.phase.Failed?
    ensures var w' := Exec(env, w, actions);
            && w'.authors == w.authors && w'.run.selected == w.run.selected
            && (w'.run.phase == Planning(next) || w'.run.phase.Failed?)
            && NeverSpoiled(env, w, actions)
    decreases |actions|
  {
    if actions != [] {
      var a := actions[0];
      assert a in actions;
      if w.run.phase.Planning? {
        PlanningRun(env, w, next, a);
      }
      MetaStepsStay(env, Apply(env, w, a), next, actions[1..]);
    }
  }

  /** An overtaken entry can be lost: the new index is followed up to the entry that overtakes. */
  lemma OvertakenIsLost(env: Env, w: World, next: nat, e: MetaEntry) returns (rest: seq<Action>)
    requires AtEntry(w, next, 0) && Plain(e) && Overtakes(env, w.run.fetching.value.entries, e)
    ensures MetaSteps(rest) && !Holds(env, Exec(env, w, rest).files, w.run.selected[next], e)
  {
    var entries := w.run.fetching.value.entries;
    var j :| 0 <= j < |entries| && NameOf(entries[j]) == NameOf(e) &&
             (forall k | 0 <= k <= j :: CanBeServed(env, entries[k])) &&
             exists body | Accepts(env, entries[j], body) :: !Accepts(env, e, body);
    var body :| Accepts(env, entries[j], body) && !Accepts(env, e, body);
    var first, w1 := PlaceUpTo(env, w, next, 0, j, e);
    var second, w2 := PlaceNext(env, w1, next, j, body, e);
    ExecAppend(env, w, first, second);
    rest := first + second;
  }

  lemma SparedStays(env: Env, w: World, next: nat, index: Bytes, rest: seq<Action>)
    requires MetaInv(env, w, true) && env.entriesOf(index).Some? && MetaSteps(rest)
    requires w.run.phase == Planning(next) && Refetches(env, w, FetchIndex(index))
    requires SparesOld(env, Entries(env, index), Entries(env, w.authors[w.run.selected[next]].1))
    ensures var (q, w') := (w.run.selected[next], Exec(env, Apply(env, w, FetchIndex(index)), rest));
            Held(env, w'.files, [], q, Entries(env, w.authors[q].1))
  {
    MetaStepKeeps(env, w, FetchIndex(index), true);
    MetaStepsStay(env, Apply(env, w, FetchIndex(index)), next, rest);
    MetaInvAlways(env, Apply(env, w, FetchIndex(index)), rest, true);
  }

  /** However fetching the files of `index` goes on, what is published stays in place. */
  ghost predicate FetchSpares(env: Env, w: World, index: Bytes, q: string, published: seq<MetaEntry>) {
    forall rest | MetaSteps(rest) ::
      Held(env, Exec(env, Apply(env, w, FetchIndex(index)), rest).files, [], q, published)
  }

  lemma SparedIndexStays(env: Env, w: World, next: nat, index: Bytes)
    requires MetaInv(env, w, true) && env.entriesOf(index).Some?
    requires w.run.phase == Planning(next) && Refetches(env, w, FetchIndex(index))
    requires SparesOld(env, Entries(env, index), Entries(env, w.authors[w.run.selected[next]].1))
    ensures FetchSpares(env, w, index, w.run.selected[next], Entries(env, w.authors[w.run.selected[next]].1))
  {
    var q := w.run.selected[next];
    var published := Entries(env, w.authors[q].1);
    forall rest | MetaSteps(rest)
      ensures Held(env, Exec(env, Apply(env, w, FetchIndex(index)), rest).files, [], q, published)
    {
      SparedStays(env, w, next, index, rest);
    }
  }

  lemma OvertakenIndexIsLost(env: Env, w: World, next: nat, index: Bytes, published: seq<MetaEntry>, i: nat)
    requires env.entriesOf(index).Some? && w.run.phase == Planning(next) && Refetches(env, w, FetchIndex(index))
    requires i < |published| && LastOf(published, i) && Plain(published[i])
    requires Overtakes(env, Entries(env, index), published[i])
    ensures !FetchSpares(env, w, index, w.run.selected[next], published)
  {
    var w1 := Apply(env, w, FetchIndex(index));
    var rest := OvertakenIsLost(env, w1, next, published[i]);
    assert !Held(env, Exec(env, w1, rest).files, [], w.run.selected[next], published);
  }

  lemma FetchSparesExact(env: Env, w: World, index: Bytes, q: string, published: seq<MetaEntry>)
    requires MetaInv(env, w, true) && env.entriesOf(index).Some? && Refetches(env, w, FetchIndex(index))
    requires q == w.run.selected[w.run.phase.next] && published == Entries(env, w.authors[q].1)
    ensures FetchSpares(env, w, index, q, published) <==> SparesOld(env, Entries(env, index), published)
  {
    if SparesOld(env, Entries(env, index), published) {
      SparedIndexStays(env, w, w.run.phase.next, index);
    } else {
      var i :| 0 <= i < |published| && LastOf(published, i) && Overtakes(env, Entries(env, index), published[i]);
      assert Held(env, w.files, [], q, published);
      OvertakenIndexIsLost(env, w, w.run.phase.next, index, published, i);
    }
  }

  /** Exactly when a new index is safe for the one that is published: once it is fetched, and
      however fetching the files it names goes on and wherever it stops, all that the published
      index names stays in place if and only if no entry of the new one overtakes one of it. */
  lemma NewIndexSparesOldExact(env: Env, files: Files, history: seq<Action>, index: Bytes)
    requires NeverSpoiled(env, Fresh(files), history) && env.entriesOf(index).Some?
    requires Refetches(env, Exec(env, Fresh(files), history), FetchIndex(index))
    ensures var w := Exec(env, Fresh(files), history);
            var q := w.run.selected[w.run.phase.next];
            var published := Entries(env, w.authors[q].1);
            FetchSpares(env, w, index, q, published) <==> SparesOld(env, Entries(env, index), published)
  {
    var w := Exec(env, Fresh(files), history);
    var q := w.run.selected[w.run.phase.next];
    MetaInvAlways(env, Fresh(files), history, true);
    FetchSparesExact(env, w, index, q, Entries(env, w.authors[q].1));
  }

  /** Whatever the last file of a name accepts, the earlier ones of that name accept too. */
  ghost predicate Settles(env: Env, entries: seq<MetaEntry>) {
    forall i, j | 0 <= i < j < |entries| && NameOf(entries[i]) == NameOf(entries[j]) && LastOf(entries, j) ::
      Implied(env, entries[j], entries[i])
  }

  ghost predicate Implied(env: Env, e: MetaEntry, f: MetaEntry) {
    forall body | Accepts(env, e, body) :: Accepts(env, f, body)
  }

  lemma {:induction false} LastExists(entries: seq<MetaEntry>, i: nat) returns (j: nat)
    requires i < |entries|
    ensures i <= j < |entries| && LastOf(entries, j) && NameOf(entries[j]) == NameOf(entries[i])
    decreases |entries| - i
  {
    if k :| i < k < |entries| && NameOf(entries[k]) == NameOf(entries[i]) {
      j := LastExists(entries, k);
    } else {
      j := i;
    }
  }

  lemma SettledHolds(env: Env, files: Files, q: string, entries: seq<MetaEntry>, i: nat)
    requires Held(env, files, [], q, entries) && Settles(env, entries) && i < |entries|
    ensures Holds(env, files, q, entries[i])
  {
    var j := LastExists(entries, i);
    assert i < j ==> Implied(env, entries[j], entries[i]);
  }

  lemma {:induction false} FetchedAlways(env: Env, w: World, next: nat, actions: seq<Action>)
    requires Inv(env, w) && FetchedOk(env, w) && next < |w.run.selected| && w.run.fetching.Some? && MetaSteps(actions)
    requires w.run.phase == Planning(next) || w.run.phase.Failed?
    ensures FetchedOk(env, Exec(env, w, actions))
    decreases |actions|
  {
    if actions != [] {
      var a := actions[0];
      assert a in actions;
      if w.run.phase.Planning? {
        PlanningRun(env, w, next, a);
        FetchingStays(env, w, next, a);
      }
      ApplyKeeps(env, w, a);
      FetchedAlways(env, Apply(env, w, a), next, actions[1..]);
    }
  }

  ghost predicate AllHold(env: Env, files: Files, q: string, entries: seq<MetaEntry>) {
    forall i | 0 <= i < |entries| :: Holds(env, files, q, entries[i])
  }

  /** Exactly when an index that names a file more than once is met in full: however its files
      are fetched, once all are in place every entry holds if and only if the last entry of
      each name settles the earlier ones. */
  lemma DuplicatesExact(env: Env, w: World, next: nat)
    requires Inv(env, w) && AtEntry(w, next, 0)
    requires w.run.fetching.value.entries == Entries(env, w.run.fetching.value.body)
    requires forall k | 0 <= k < |w.run.fetching.value.entries| :: CanBeServed(env, w.run.fetching.value.entries[k])
    ensures var (q, entries) := (w.run.selected[next], w.run.fetching.value.entries);
            (forall rest | MetaSteps(rest) && AtEntry(Exec(env, w, rest), next, |entries|) &&
                           Exec(env, w, rest).run.fetching.value.entries == entries ::
               AllHold(env, Exec(env, w, rest).files, q, entries)) <==>
            Settles(env, entries)
  {
    var q, entries := w.run.selected[next], w.run.fetching.value.entries;
    if Settles(env, entries) {
      forall rest | MetaSteps(rest) && AtEntry(Exec(env, w, rest), next, |entries|) &&
                    Exec(env, w, rest).run.fetching.value.entries == entries
        ensures AllHold(env, Exec(env, w, rest).files, q, entries)
      {
        FetchedAlways(env, w, next, rest);
        MetaStepsStay(env, w, next, rest);
        assert entries[..|entries|] == entries;
        forall i | 0 <= i < |entries| ensures Holds(env, Exec(env, w, rest).files, q, entries[i]) {
          SettledHolds(env, Exec(env, w, rest).files, q, entries, i);
        }
      }
    } else {
      var i, j :| 0 <= i < j < |entries| && NameOf(entries[i]) == NameOf(entries[j]) && LastOf(entries, j) &&
                  !Implied(env, entries[j], entries[i]);
      var rest := DuplicateIsLost(env, w, next, i, j);
    }
  }

  lemma DuplicateIsLost(env: Env, w: World, next: nat, i: nat, j: nat) returns (rest: seq<Action>)
    requires AtEntry(w, next, 0) && i < j < |w.run.fetching.value.entries|
    requires forall k | 0 <= k < |w.run.fetching.value.entries| :: CanBeServed(env, w.run.fetching.value.entries[k])
    requires var entries := w.run.fetching.value.entries;
             NameOf(entries[i]) == NameOf(entries[j]) && LastOf(entries, j) && !Implied(env, entries[j], entries[i])
    ensures var (w', entries) := (Exec(env, w, rest), w.run.fetching.value.entries);
            && MetaSteps(rest) && AtEntry(w', next, |entries|) && w'.run.fetching.value.entries == entries
            && !AllHold(env, w'.files, w.run.selected[next], entries)
  {
    var entries := w.run.fetching.value.entries;
    var body :| Accepts(env, entries[j], body) && !Accepts(env, entries[i], body);
    assert Plain(entries[i]) && CanBeServed(env, entries[j]);
    var first, w1 := PlaceUpTo(env, w, next, 0, j, entries[i]);
    var second, w2 := PlaceNext(env, w1, next, j, body, entries[i]);
    var third, w3 := PlaceUpTo(env, w2, next, j + 1, |entries|, entries[i]);
    ExecAppend(env, w, first, second);
    ExecAppend(env, w, first + second, third);
    rest := first + second + third;
    assert !Holds(env, w3.files, w.run.selected[next], entries[i]);
  }
}
