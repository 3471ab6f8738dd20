/** Two readers of a growing event log (`eventlog.py`): the batch `normalize` and the
    incremental reader that decodes only what was appended, and when they agree. */
module EventLog {
  import opened Base
  import opened EventFold
  import opened EventLines

  /** What one line of the log decodes to. `Unreadable` lines make the decoder raise. */
  datatype Line = Ignored | Dump(variables: map<Name, Value>) | Decoded(event: Event) | Unreadable

  predicate LineRaises(l: Line) {
    l.Unreadable? || (l.Decoded? && Raises(l.event))
  }

  function LineAfter(s: State, l: Line): State {
    match l
    case Dump(dump) => s.(variables := KeepWanted(dump, s.variables, WANTED))
    case Decoded(e) => if Raises(e) then s else Consumed(s, e)
    case _ => s
  }

  /** Folding lines while skipping the ones that raise. */
  function FoldSkip(ls: seq<Line>): State {
    if ls == [] then EMPTY else LineAfter(FoldSkip(ls[..|ls| - 1]), ls[|ls| - 1])
  }

  function Skips(ls: seq<Line>): nat {
    if ls == [] then 0 else Skips(ls[..|ls| - 1]) + if LineRaises(ls[|ls| - 1]) then 1 else 0
  }

  /** The event that counts in a line: decoded, and not raising. */
  function AppliedOne(l: Line): seq<Event> {
    if l.Decoded? && !Raises(l.event) then [l.event] else []
  }

  function Applied(ls: seq<Line>): seq<Event> {
    if ls == [] then []
    else Applied(ls[..|ls| - 1]) + AppliedOne(ls[|ls| - 1])
  }

  /** A log's artifact is the fold of its applied events; its variable dump is kept apart. */
  lemma {:induction false} FoldSkipIsFold(ls: seq<Line>)
    ensures FoldSkip(ls).(variables := map[]) == FoldEvents(Applied(ls))
  {
    if ls != [] {
      FoldSkipIsFold(ls[..|ls| - 1]);
      var front, applied := FoldSkip(ls[..|ls| - 1]), Applied(ls[..|ls| - 1]);
      LineFolded(front, applied, ls[|ls| - 1]);
    }
  }

  lemma LineFolded(s: State, applied: seq<Event>, l: Line)
    requires s.(variables := map[]) == FoldEvents(applied)
    ensures LineAfter(s, l).(variables := map[]) == FoldEvents(applied + AppliedOne(l))
  {
    if AppliedOne(l) != [] {
      FoldSnoc(applied, l.event);
      VariablesApart(s, l.event);
    } else {
      assert applied + [] == applied;
    }
  }

  lemma FoldSnoc(es: seq<Event>, e: Event)
    ensures FoldEvents(es + [e]) == Consumed(FoldEvents(es), e)
  {
    assert (es + [e])[..|es|] == es;
  }

  lemma VariablesApart(s: State, e: Event)
    ensures Consumed(s, e).(variables := map[]) == Consumed(s.(variables := map[]), e)
  {
  }

  function Meanings(meaning: Bytes -> Line, lines: seq<Bytes>): seq<Line> {
    seq(|lines|, i requires 0 <= i < |lines| => meaning(lines[i]))
  }

  lemma MeaningsAppend(meaning: Bytes -> Line, a: seq<Bytes>, b: seq<Bytes>)
    ensures Meanings(meaning, a + b) == Meanings(meaning, a) + Meanings(meaning, b)
  {
  }

  // ------------------------------------------------------------------- the batch reader

  /** The artifact of a log read in one pass, or None when processing a line raises. */
  function Normalized(meaning: Bytes -> Line, c: Bytes): Option<State> {
    var ls := Meanings(meaning, TextLines(c));
    if Skips(ls) == 0 then Some(FoldSkip(ls)) else None
  }

  method FoldLine(acc: NormalizeState, l: Line) returns (raised: bool)
    modifies acc
    ensures raised == LineRaises(l) && acc.View() == LineAfter(old(acc.View()), l)
  {
    match l
    case Ignored => raised := false;
    case Unreadable => raised := true;
    case Dump(dump) => acc.KeepVariables(dump); raised := false;
    case Decoded(e) => raised := acc.Consume(e);
  }

  lemma FoldSkipAt(ls: seq<Line>, i: nat)
    requires i < |ls|
    ensures FoldSkip(ls[..i + 1]) == LineAfter(FoldSkip(ls[..i]), ls[i])
    ensures Skips(ls[..i + 1]) == Skips(ls[..i]) + if LineRaises(ls[i]) then 1 else 0
  {
    assert ls[..i + 1][..i] == ls[..i];
  }

  method Normalize(meaning: Bytes -> Line, content: Bytes) returns (artifact: Option<State>)
    ensures artifact == Normalized(meaning, content)
  {
    var acc := new NormalizeState();
    var lines := TextLines(content);
    ghost var all := Meanings(meaning, lines);
    for i := 0 to |lines|
      invariant |all| == |lines| && fresh(acc)
      invariant acc.View() == FoldSkip(all[..i]) && Skips(all[..i]) == 0
    {
      FoldSkipAt(all, i);
      var raised := FoldLine(acc, meaning(lines[i]));
      if raised {
        SkipsGrow(all, i + 1);
        return None;
      }
    }
    assert all[..|lines|] == all;
    var state := acc.Result();
    return Some(state);
  }

  lemma {:induction false} SkipsGrow(ls: seq<Line>, i: nat)
    requires i <= |ls|
    ensures Skips(ls[..i]) <= Skips(ls)
    decreases |ls| - i
  {
    if i < |ls| {
      assert ls[..i + 1][..i] == ls[..i];
      SkipsGrow(ls, i + 1);
    } else {
      assert ls[..i] == ls;
    }
  }

  // ---------------------------------------------------- where batch and incremental agree

  /** What any decoder of the source has in common: a line is stripped before it is looked
      at, so blank text beside a carriage return makes no difference, and a blank line is
      ignored. `blank` tells the lines that strip to nothing. */
  ghost predicate Strips(blank: Bytes -> bool, meaning: Bytes -> Line) {
    && (forall b | blank(b) :: meaning(b) == Ignored)
    && (forall a, b {:trigger meaning(a + [CR] + b)} | blank(b) :: meaning(a + [CR] + b) == meaning(a))
    && (forall a, b {:trigger meaning(a + [CR] + b)} | blank(a) :: meaning(a + [CR] + b) == meaning(b))
  }

  /** The lines that are not ignored, in order. */
  function Told(ls: seq<Line>): seq<Line> {
    if ls == [] then []
    else Told(ls[..|ls| - 1]) + if ls[|ls| - 1] == Ignored then [] else [ls[|ls| - 1]]
  }

  lemma {:induction false} ToldAppend(a: seq<Line>, b: seq<Line>)
    ensures Told(a + b) == Told(a) + Told(b)
  {
    if b == [] {
      assert a + b == a;
    } else {
      ToldAppend(a, b[..|b| - 1]);
      assert (a + b)[..|a + b| - 1] == a + b[..|b| - 1];
    }
  }

  lemma ToldOne(l: Line)
    ensures Told([l]) == if l == Ignored then [] else [l]
  {
    assert [l][..0] == [];
  }

  /** An ignored line leaves no trace in a fold. */
  lemma {:induction false} ToldIsFolded(ls: seq<Line>)
    ensures FoldSkip(Told(ls)) == FoldSkip(ls) && Skips(Told(ls)) == Skips(ls)
  {
    if ls != [] {
      var front, last := ls[..|ls| - 1], ls[|ls| - 1];
      ToldIsFolded(front);
      if last != Ignored {
        assert Told(ls)[..|Told(ls)| - 1] == Told(front);
      } else {
        assert Told(ls) == Told(front);
      }
    }
  }

  lemma {:induction false} EmptyIsIgnored(meaning: Bytes -> Line, lines: seq<Bytes>)
    requires meaning([]) == Ignored
    ensures Told(Meanings(meaning, NonEmpty(lines))) == Told(Meanings(meaning, lines))
  {
    if lines != [] {
      var front, last := lines[..|lines| - 1], lines[|lines| - 1];
      EmptyIsIgnored(meaning, front);
      assert lines == front + [last];
      ToldSnoc(meaning, front, last);
      ToldOne(meaning(last));
      if last != [] {
        ToldSnoc(meaning, NonEmpty(front), last);
      } else {
        assert NonEmpty(lines) == NonEmpty(front);
      }
    }
  }

  /** Of pieces with at most one that is not blank, that one says all the line says. */
  lemma {:induction false} PiecesTell(blank: Bytes -> bool, meaning: Bytes -> Line, pieces: seq<Bytes>)
    requires BlankOk(blank) && Strips(blank, meaning) && pieces != [] && NonBlanks(blank, pieces) <= 1
    ensures Told(Meanings(meaning, pieces)) == Told([meaning(Joined(pieces))])
    decreases |pieces|
  {
    if |pieces| == 1 {
      assert Meanings(meaning, pieces) == [meaning(pieces[0])];
    } else {
      var front, last := pieces[..|pieces| - 1], pieces[|pieces| - 1];
      AtMostOne(blank, pieces);
      PiecesTell(blank, meaning, front);
      TellStep(blank, meaning, front, last, Joined(front));
      assert pieces == front + [last] && Joined(pieces) == Joined(front) + [CR] + last;
    }
  }

  lemma TellStep(blank: Bytes -> bool, meaning: Bytes -> Line, front: seq<Bytes>, last: Bytes, joined: Bytes)
    requires Strips(blank, meaning) && (blank(joined) || blank(last))
    requires Told(Meanings(meaning, front)) == Told([meaning(joined)])
    ensures Told(Meanings(meaning, front + [last])) == Told([meaning(joined + [CR] + last)])
  {
    JoiningTells(blank, meaning, joined, last);
    ToldSnoc(meaning, front, last);
  }

  lemma ToldSnoc(meaning: Bytes -> Line, front: seq<Bytes>, last: Bytes)
    ensures Told(Meanings(meaning, front + [last])) == Told(Meanings(meaning, front)) + Told([meaning(last)])
  {
    MeaningsAppend(meaning, front, [last]);
    ToldAppend(Meanings(meaning, front), [meaning(last)]);
    assert Meanings(meaning, [last]) == [meaning(last)];
  }

  /** Put together around a carriage return, two pieces of which one is blank say what they
      say apart. */
  lemma JoiningTells(blank: Bytes -> bool, meaning: Bytes -> Line, a: Bytes, b: Bytes)
    requires Strips(blank, meaning) && (blank(a) || blank(b))
    ensures Told([meaning(a + [CR] + b)]) == Told([meaning(a)]) + Told([meaning(b)])
  {
    ToldOne(meaning(a));
    ToldOne(meaning(b));
    ToldOne(meaning(a + [CR] + b));
  }

  lemma {:induction false} LinesTell(blank: Bytes -> bool, meaning: Bytes -> Line, lines: seq<Bytes>)
    requires BlankOk(blank) && Strips(blank, meaning)
    requires forall k | 0 <= k < |lines| :: OneSided(blank, lines[k])
    ensures Told(Meanings(meaning, AllPieces(lines))) == Told(Meanings(meaning, lines))
  {
    if lines != [] {
      var front, last := lines[..|lines| - 1], lines[|lines| - 1];
      LinesTell(blank, meaning, front);
      OneSidedLine(blank, last);
      PiecesTell(blank, meaning, Pieces(last));
      JoinedPieces(last);
      MeaningsAppend(meaning, AllPieces(front), Pieces(last));
      ToldAppend(Meanings(meaning, AllPieces(front)), Meanings(meaning, Pieces(last)));
      assert lines == front + [last];
      ToldSnoc(meaning, front, last);
    }
  }

  /** The skipping fold over the byte reader's lines is the batch artifact when nothing was
      skipped, and something is skipped exactly when the batch reader raises. */
  ghost predicate Agree(meaning: Bytes -> Line, c: Bytes) {
    var ls := Meanings(meaning, Lines(LF, c));
    && (Skips(ls) == 0 ==> Normalized(meaning, c) == Some(FoldSkip(ls)))
    && (Skips(ls) > 0 <==> Normalized(meaning, c) == None)
  }

  ghost predicate AllOneSided(blank: Bytes -> bool, c: Bytes) {
    forall k | 0 <= k < |Lines(LF, c)| :: OneSided(blank, Lines(LF, c)[k])
  }

  /** On the log cut at its last newline the two readers agree, for every decoder, when no
      carriage return has text on both sides of it. */
  lemma IncrementalAgreesWithBatch(blank: Bytes -> bool, meaning: Bytes -> Line, c: Bytes)
    requires BlankOk(blank) && Strips(blank, meaning) && AllOneSided(blank, Cut(LF, c))
    ensures Agree(meaning, Cut(LF, c))
  {
    CutIsWhole(LF, c);
    TextIsTold(meaning, Cut(LF, c));
    LinesTell(blank, meaning, Lines(LF, Cut(LF, c)));
    ToldIsFolded(Meanings(meaning, Lines(LF, Cut(LF, c))));
    ToldIsFolded(Meanings(meaning, TextLines(Cut(LF, c))));
  }

  lemma TextIsTold(meaning: Bytes -> Line, c: Bytes)
    requires Whole(LF, c) && meaning([]) == Ignored
    ensures Told(Meanings(meaning, TextLines(c))) == Told(Meanings(meaning, AllPieces(Lines(LF, c))))
  {
    TextLinesArePieces(c);
    EmptyIsIgnored(meaning, TextLines(c));
    EmptyIsIgnored(meaning, AllPieces(Lines(LF, c)));
  }

  const TICK: Event := Event(PsiEvent, map[])

  /** A decoder that strips: each line that is not blank is one pressure sample. */
  function Ticks(blank: Bytes -> bool): Bytes -> Line {
    (b: Bytes) => if blank(b) then Ignored else Decoded(TICK)
  }

  lemma TicksStrip(blank: Bytes -> bool)
    requires BlankOk(blank)
    ensures Strips(blank, Ticks(blank))
  {
  }

  lemma {:induction false} TicksCount(blank: Bytes -> bool, lines: seq<Bytes>)
    ensures var ls := Meanings(Ticks(blank), lines);
            |FoldSkip(ls).psi| == NonBlanks(blank, lines) && Skips(ls) == 0
  {
    if lines != [] {
      var front := lines[..|lines| - 1];
      TicksCount(blank, front);
      assert Meanings(Ticks(blank), lines)[..|front|] == Meanings(Ticks(blank), front);
    }
  }

  /** Splitting at carriage returns never loses text, and gains some unless every line is
      one-sided. */
  lemma {:induction false} PiecesCount(blank: Bytes -> bool, lines: seq<Bytes>)
    requires BlankOk(blank)
    ensures NonBlanks(blank, lines) <= NonBlanks(blank, AllPieces(lines))
    ensures (forall k | 0 <= k < |lines| :: OneSided(blank, lines[k])) <==>
            NonBlanks(blank, lines) == NonBlanks(blank, AllPieces(lines))
  {
    if lines != [] {
      var front, last := lines[..|lines| - 1], lines[|lines| - 1];
      PiecesCount(blank, front);
      OneSidedLine(blank, last);
      NonBlanksAppend(blank, AllPieces(front), Pieces(last));
      assert forall k | 0 <= k < |front| :: front[k] == lines[k];
    }
  }

  lemma {:induction false} EmptyIsBlank(blank: Bytes -> bool, lines: seq<Bytes>)
    requires blank([])
    ensures NonBlanks(blank, NonEmpty(lines)) == NonBlanks(blank, lines)
  {
    if lines != [] {
      var front, last := lines[..|lines| - 1], lines[|lines| - 1];
      EmptyIsBlank(blank, front);
      NonBlanksAppend(blank, NonEmpty(front), if last == [] then [] else [last]);
      if last != [] {
        assert [last][..0] == [];
      }
    }
  }

  function IsSpace(b: Byte): bool { b == 32 || 9 <= b <= 13 || 28 <= b <= 31 }

  /** Taking white space for blank, as `strip` does, meets what is asked of `blank`. */
  lemma SpacesAreBlank()
    ensures BlankOk((s: Bytes) => forall i | 0 <= i < |s| :: IsSpace(s[i]))
  {
    var blank := (s: Bytes) => forall i | 0 <= i < |s| :: IsSpace(s[i]);
    forall a, b
      ensures blank(a + [CR] + b) <==> blank(a) && blank(b)
    {
      var s := a + [CR] + b;
      assert forall i | 0 <= i < |a| :: s[i] == a[i];
      assert forall i | 0 <= i < |b| :: s[|a| + 1 + i] == b[i];
      assert forall i | |a| < i < |s| :: s[i] == b[i - |a| - 1];
    }
  }

  /** The condition exactly: whatever the decoder, the two readers agree on the log cut at
      its last newline if and only if no carriage return in it has text on both sides of it
      within its line. */
  lemma AgreementExact(blank: Bytes -> bool, c: Bytes)
    requires BlankOk(blank)
    ensures (forall meaning: Bytes -> Line | Strips(blank, meaning) :: Agree(meaning, Cut(LF, c))) <==>
            AllOneSided(blank, Cut(LF, c))
  {
    if AllOneSided(blank, Cut(LF, c)) {
      forall meaning: Bytes -> Line | Strips(blank, meaning) ensures Agree(meaning, Cut(LF, c)) {
        IncrementalAgreesWithBatch(blank, meaning, c);
      }
    } else {
      TicksStrip(blank);
      TicksDisagree(blank, c);
    }
  }

  lemma TicksDisagree(blank: Bytes -> bool, c: Bytes)
    requires BlankOk(blank) && !AllOneSided(blank, Cut(LF, c))
    ensures !Agree(Ticks(blank), Cut(LF, c))
  {
    var whole := Cut(LF, c);
    CutIsWhole(LF, c);
    TextLinesArePieces(whole);
    EmptyIsBlank(blank, TextLines(whole));
    EmptyIsBlank(blank, AllPieces(Lines(LF, whole)));
    PiecesCount(blank, Lines(LF, whole));
    TicksCount(blank, TextLines(whole));
    TicksCount(blank, Lines(LF, whole));
  }

  // -------------------------------------------------------------- the incremental reader

  /** The log as the file system holds it. */
  class LogFile {
    var there: bool
    var inode: nat
    var content: Bytes

    constructor (present: bool, node: nat, bytes: Bytes)
      ensures there == present && inode == node && content == bytes
    {
      there, inode, content := present, node, bytes;
    }

    method Append(chunk: Bytes)
      modifies this
      ensures content == old(content) + chunk && there == old(there) && inode == old(inode)
    {
      content := content + chunk;
    }
  }

  /** Where a poll takes up reading, given the bytes seen so far: from nothing when the
      log was replaced or is shorter than the offset, else after what was seen. */
  function StartOf(seen: Bytes, inode: Option<nat>, node: nat, content: Bytes): (start: Bytes)
    ensures |start| <= |content|
  {
    if (inode.Some? && inode.value != node) || |content| < |seen| then [] else seen
  }

  /** What has been read after a poll that reaches the end of `content`. */
  function SeenAfter(start: Bytes, content: Bytes): Bytes
    requires |start| <= |content|
  {
    start + Cut(LF, content[|start|..])
  }

  /** Where an I/O fault cuts a poll short: at opening the log, at asking for its size, or
      after some lines were read. */
  datatype Fault = Never | Opening | Sizing | Reading(lines: nat)

  class IncrementalEventLog {
    const meaning: Bytes -> Line
    var state: NormalizeState
    var offset: nat
    var inode: Option<nat>
    var skippedLines: nat
    ghost var seen: Bytes

    /** The state is the fold of exactly the complete lines up to the offset. */
    ghost predicate Valid()
      reads this, state
    {
      && |seen| == offset && Whole(LF, seen)
      && state.View() == FoldSkip(Meanings(meaning, Lines(LF, seen)))
      && skippedLines == Skips(Meanings(meaning, Lines(LF, seen)))
    }

    constructor (decode: Bytes -> Line)
      ensures Valid() && meaning == decode && fresh(state) && seen == [] && inode == None
    {
      meaning := decode;
      state := new NormalizeState();
      offset, inode, skippedLines, seen := 0, None, 0, [];
    }

    method Reset()
      modifies this
      ensures Valid() && fresh(state) && seen == [] && inode == None
    {
      skippedLines := 0;
      state := new NormalizeState();
      offset := 0;
      inode := None;
      seen := [];
    }

    /** Folds one complete line in, after the offset has moved past it. */
    method Take(line: Bytes)
      requires Valid() && Unbroken(LF, line)
      modifies this, state
      ensures Valid() && state == old(state) && inode == old(inode)
      ensures seen == old(seen) + line + [NL]
    {
      ghost var before := Meanings(meaning, Lines(LF, seen));
      ScanAppend(LF, seen, line + [NL]);
      OneLine(LF, line, NL);
      MeaningsAppend(meaning, Lines(LF, seen), [line]);
      assert seen + (line + [NL]) == seen + line + [NL];
      offset := offset + |line| + 1;
      seen := seen + line + [NL];
      var l := meaning(line);
      assert Meanings(meaning, [line]) == [l];
      assert (before + [l])[..|before|] == before;
      var raised := FoldLine(state, l);
      if raised {
        skippedLines := skippedLines + 1;
      }
    }

    /** Reads on from the offset while the writer keeps appending: `appended[k]` lands
        just before the k-th line is read. */
    method ReadOn(log: LogFile, appended: seq<Bytes>, fault: Fault) returns (ok: bool)
      requires Valid() && offset <= |log.content|
      modifies this, state, log
      ensures Valid() && state == old(state) && inode == old(inode)
      ensures log.there == old(log.there) && log.inode == old(log.inode) && old(log.content) <= log.content
      ensures Follows(old(seen), seen, log.content)
      ensures ok ==> seen == SeenAfter(old(seen), log.content)
      ensures fault == Never ==> ok
    {
      ghost var start := seen;
      var k := 0;
      while true
        invariant Valid() && state == old(state) && inode == old(inode)
        invariant log.there == old(log.there) && log.inode == old(log.inode) && old(log.content) <= log.content
        invariant offset <= |log.content| && Follows(start, seen, log.content)
        decreases if k < |appended| then |appended| - k else 0, |log.content| - offset
      {
        if k < |appended| {
          FollowsAppend(start, seen, log.content, appended[k]);
          log.Append(appended[k]);
        }
        if fault == Reading(k) {
          return false;
        }
        k := k + 1;
        var n := Find(LF, log.content, offset);
        if n == |log.content| {
          RestIsCut(start, log.content, seen);
          return true;
        }
        FollowsLine(start, seen, log.content, n);
        Take(log.content[offset..n]);
      }
    }

    method StartOver(log: LogFile)
      requires Valid()
      modifies this
      ensures Valid() && (state == old(state) || fresh(state))
      ensures inode == Some(log.inode) && seen == StartOf(old(seen), old(inode), log.inode, log.content)
    {
      if (inode.Some? && inode.value != log.inode) || |log.content| < offset {
        Reset();
      }
      inode := Some(log.inode);
    }

    ghost function View(log: LogFile): Sys
      reads this, log
    {
      Sys(if log.there then File(log.inode, log.content) else Gone, seen, inode)
    }

    /** Starts over when the log cannot be opened, was replaced or is shorter than the
        offset, then reads every complete line there is, or as many as a fault lets it. */
    method Poll(log: LogFile, appended: seq<Bytes>, fault: Fault) returns (ok: bool, ghost op: Op)
      requires Valid()
      modifies this, state, log
      ensures Valid() && (state == old(state) || fresh(state))
      ensures log.there == old(log.there) && log.inode == old(log.inode) && old(log.content) <= log.content
      ensures op.Poll? && View(log) == Happen(old(View(log)), op)
      ensures ok ==> op.stop == AtEnd
      ensures fault == Never ==> ok
    {
      if !log.there || fault == Opening {
        Reset();
        return !log.there, Op.Poll([], if log.there then AtOpen else AtEnd);
      }
      if fault == Sizing {
        return false, Op.Poll([], AtStat);
      }
      ghost var found := log.content;
      StartOver(log);
      ghost var start := seen;
      ok := ReadOn(log, appended, fault);
      FollowsWhole(start, seen, log.content);
      op := Op.Poll(log.content[|found|..], if ok then AtEnd else AtLine(|seen|));
      assert found + log.content[|found|..] == log.content;
    }
  }

  /** Since it started, the reader has seen just what the log holds up to its offset. */
  ghost predicate Follows(start: Bytes, seen: Bytes, content: Bytes) {
    |start| <= |seen| <= |content| && seen == start + content[|start|..|seen|]
  }

  lemma FollowsAppend(start: Bytes, seen: Bytes, content: Bytes, chunk: Bytes)
    requires Follows(start, seen, content)
    ensures Follows(start, seen, content + chunk)
  {
    assert (content + chunk)[|start|..|seen|] == content[|start|..|seen|];
  }

  lemma FollowsLine(start: Bytes, seen: Bytes, content: Bytes, n: nat)
    requires Follows(start, seen, content) && |seen| <= n < |content| && content[n] == NL
    ensures Follows(start, seen + content[|seen|..n] + [NL], content)
  {
    assert content[|start|..n + 1] == content[|start|..|seen|] + content[|seen|..n] + [NL];
  }

  lemma FollowsWhole(start: Bytes, seen: Bytes, content: Bytes)
    requires Follows(start, seen, content) && Whole(LF, start) && Whole(LF, seen)
    ensures StoppedAt(start, content, |seen|) == seen
  {
    ScanAppend(LF, start, content[|start|..|seen|]);
  }

  lemma RestIsCut(start: Bytes, content: Bytes, seen: Bytes)
    requires Follows(start, seen, content) && Whole(LF, start) && Whole(LF, seen)
    requires Unbroken(LF, content[|seen|..|content|])
    ensures seen == SeenAfter(start, content)
  {
    var rest := content[|start|..];
    var n := |seen| - |start|;
    assert rest[..n] == content[|start|..|seen|] && rest[n..] == content[|seen|..|content|];
    ScanAppend(LF, start, rest[..n]);
    CutIsLongest(LF, rest, n);
  }

  // -------------------------------------------------------------- histories of log and reader

  datatype Disk = Gone | File(inode: nat, content: Bytes)

  datatype Sys = Sys(disk: Disk, seen: Bytes, inode: Option<nat>)

  /** Where a poll came to its end: at the last complete line, or cut short by a fault. */
  datatype Stop = AtEnd | AtOpen | AtStat | AtLine(offset: nat)

  /** What can happen: the writer appends, the log is replaced or truncated (with any
      inode and content) or removed, and the reader polls while `late` is appended. */
  datatype Op = Append(chunk: Bytes) | Replace(inode: nat, content: Bytes) | Remove | Poll(late: Bytes, stop: Stop)

  /** What has been read when a fault stops the reader at an offset between two lines. */
  ghost function StoppedAt(start: Bytes, content: Bytes, n: nat): Bytes {
    if |start| <= n <= |content| && Whole(LF, content[|start|..n]) then start + content[|start|..n] else start
  }

  ghost function Happen(s: Sys, op: Op): Sys {
    match op
    case Append(chunk) => if s.disk.Gone? then s else s.(disk := File(s.disk.inode, s.disk.content + chunk))
    case Replace(node, content) => s.(disk := File(node, content))
    case Remove => s.(disk := Gone)
    case Poll(late, stop) =>
      if s.disk.Gone? || stop == AtOpen then Sys(s.disk, [], None)
      else if stop == AtStat then s
      else
        var start := StartOf(s.seen, s.inode, s.disk.inode, s.disk.content);
        var content := s.disk.content + late;
        var seen := if stop == AtEnd then SeenAfter(start, content) else StoppedAt(start, content, stop.offset);
        Sys(File(s.disk.inode, content), seen, Some(s.disk.inode))
  }

  ghost function Run(s: Sys, ops: seq<Op>): Sys
    decreases |ops|
  {
    if ops == [] then s else Run(Happen(s, ops[0]), ops[1..])
  }

  ghost predicate ReaderOk(s: Sys) {
    Whole(LF, s.seen) && (s.inode == None ==> s.seen == [])
  }

  /** The log as it stands is either visibly another one, or still begins with what was read. */
  ghost predicate Tracks(s: Sys) {
    s.disk.File? && s.inode == Some(s.disk.inode) && |s.seen| <= |s.disk.content| ==> s.seen <= s.disk.content
  }

  /** Every change of the log along the way was one the reader can tell. */
  ghost predicate Visible(s: Sys, ops: seq<Op>)
    decreases |ops|
  {
    ops == [] || (Tracks(Happen(s, ops[0])) && Visible(Happen(s, ops[0]), ops[1..]))
  }

  /** Appending to a log still being followed, replacing it under another inode or below
      the offset, removing it, and polling are all visible changes. */
  lemma VisibleChanges(s: Sys, op: Op)
    requires ReaderOk(s) && Tracks(s)
    ensures ReaderOk(Happen(s, op))
    ensures op.Append? && s.disk.File? && |s.seen| <= |s.disk.content| ==> Tracks(Happen(s, op))
    ensures op.Replace? && (s.inode != Some(op.inode) || |op.content| < |s.seen|) ==> Tracks(Happen(s, op))
    ensures op.Remove? || op.Poll? ==> Tracks(Happen(s, op))
  {
    if op.Poll? {
      PollIsVisible(s, op.late, op.stop);
    }
  }

  lemma PollIsVisible(s: Sys, late: Bytes, stop: Stop)
    requires ReaderOk(s) && Tracks(s)
    ensures ReaderOk(Happen(s, Poll(late, stop))) && Tracks(Happen(s, Poll(late, stop)))
  {
    if s.disk.File? {
      if stop == AtEnd {
        PollSees(s, late);
        CutIsWhole(LF, s.disk.content + late);
      } else if stop.AtLine? {
        StoppedInLog(StartOf(s.seen, s.inode, s.disk.inode, s.disk.content), s.disk.content, late, stop.offset);
      }
    }
  }

  lemma StoppedInLog(start: Bytes, found: Bytes, late: Bytes, n: nat)
    requires Whole(LF, start) && start <= found
    ensures Whole(LF, StoppedAt(start, found + late, n)) && StoppedAt(start, found + late, n) <= found + late
  {
    var content := found + late;
    if |start| <= n <= |content| {
      ScanAppend(LF, start, content[|start|..n]);
      assert content[..|start|] == start && content[..n] == start + content[|start|..n];
    }
  }

  /** Reading on from a starting point ends at the log's last newline if and only if the
      log begins with what had been read up to there. */
  lemma SeenAfterExact(start: Bytes, found: Bytes, late: Bytes)
    requires Whole(LF, start) && |start| <= |found|
    ensures SeenAfter(start, found + late) == Cut(LF, found + late) <==> start <= found
  {
    var content := found + late;
    var rest := content[|start|..];
    assert content[..|start|] == found[..|start|];
    if start <= found {
      assert content == start + rest;
      CutAppend(LF, start, rest);
    } else {
      CutIsWhole(LF, content);
      StartIsKept(start, content);
    }
  }

  lemma StartIsKept(start: Bytes, content: Bytes)
    requires |start| <= |content| && start != content[..|start|]
    ensures SeenAfter(start, content) != Cut(LF, content)
  {
    var seen := SeenAfter(start, content);
    assert seen[..|start|] == start;
    CutIsWhole(LF, content);
    assert |Cut(LF, content)| >= |start| ==> Cut(LF, content)[..|start|] == content[..|start|];
  }

  /** A poll leaves the reader having read exactly the log up to its last newline if and
      only if the log it found was visibly another one or began with what was read. */
  lemma PollSees(s: Sys, late: Bytes)
    requires ReaderOk(s) && s.disk.File?
    ensures var s' := Happen(s, Poll(late, AtEnd));
            s'.seen == Cut(LF, s'.disk.content) <==> Tracks(s)
  {
    var start := StartOf(s.seen, s.inode, s.disk.inode, s.disk.content);
    SeenAfterExact(start, s.disk.content, late);
  }

  lemma {:induction false} HistoryKeepsReader(s: Sys, ops: seq<Op>)
    requires ReaderOk(s) && Tracks(s) && Visible(s, ops)
    ensures ReaderOk(Run(s, ops)) && Tracks(Run(s, ops))
    decreases |ops|
  {
    if ops != [] {
      VisibleChanges(s, ops[0]);
      HistoryKeepsReader(Happen(s, ops[0]), ops[1..]);
    }
  }

  /** The main result: after any history of visible changes and of polls, cut short or
      not, a poll that comes to its end leaves the reader's state equal to `normalize` on the
      log cut at its last newline when it has skipped nothing, and it has skipped something
      exactly when `normalize` would raise. */
  lemma PolledReaderAgrees(blank: Bytes -> bool, meaning: Bytes -> Line, disk: Disk, ops: seq<Op>, late: Bytes)
    requires BlankOk(blank) && Strips(blank, meaning) && Visible(Sys(disk, [], None), ops)
    requires var s := Happen(Run(Sys(disk, [], None), ops), Poll(late, AtEnd));
             s.disk.File? ==> AllOneSided(blank, Cut(LF, s.disk.content))
    ensures var s := Happen(Run(Sys(disk, [], None), ops), Poll(late, AtEnd));
            var ls := Meanings(meaning, Lines(LF, s.seen));
            if s.disk.Gone? then FoldSkip(ls) == EMPTY
            else
              && (Skips(ls) == 0 ==> Normalized(meaning, Cut(LF, s.disk.content)) == Some(FoldSkip(ls)))
              && (Skips(ls) > 0 <==> Normalized(meaning, Cut(LF, s.disk.content)) == None)
  {
    var before := Run(Sys(disk, [], None), ops);
    HistoryKeepsReader(Sys(disk, [], None), ops);
    var s := Happen(before, Poll(late, AtEnd));
    if s.disk.File? {
      PollSees(before, late);
      IncrementalAgreesWithBatch(blank, meaning, s.disk.content);
    }
  }

  /** A fault loses nothing: whenever the reader still follows the log, what it has folded
      in is exactly the complete lines of the log up to its offset. */
  lemma CutShortStaysInLog(disk: Disk, ops: seq<Op>)
    requires Visible(Sys(disk, [], None), ops)
    ensures var s := Run(Sys(disk, [], None), ops);
            s.disk.File? && s.inode == Some(s.disk.inode) && |s.seen| <= |s.disk.content| ==>
              Whole(LF, s.seen) && s.seen == s.disk.content[..|s.seen|]
  {
    HistoryKeepsReader(Sys(disk, [], None), ops);
  }
}
