/** The bytes of an event log as lines (`eventlog.py`): as a reader of bytes sees them, which
    splits at newlines, and as text mode does, where a carriage return ends a line too. */
module EventLines {
  import opened Base

  const NL: Byte := 10
  const CR: Byte := 13

  const LF: set<Byte> := {NL}
  const RETURNS: set<Byte> := {CR}
  const BREAKS: set<Byte> := {NL, CR}

  /** The lines ended by one of `ends`, without their ends, and the partial last line. */
  function Scan(ends: set<Byte>, c: Bytes): (seq<Bytes>, Bytes)
    decreases |c|
  {
    if c == [] then ([], [])
    else
      var (lines, partial) := Scan(ends, c[..|c| - 1]);
      if c[|c| - 1] in ends then (lines + [partial], []) else (lines, partial + [c[|c| - 1]])
  }

  function Lines(ends: set<Byte>, c: Bytes): seq<Bytes> { Scan(ends, c).0 }

  ghost predicate Whole(ends: set<Byte>, c: Bytes) { Scan(ends, c).1 == [] }

  ghost predicate Unbroken(ends: set<Byte>, s: Bytes) {
    forall i | 0 <= i < |s| :: s[i] !in ends
  }

  lemma ScanSnoc(ends: set<Byte>, c: Bytes, b: Byte)
    ensures var (lines, partial) := Scan(ends, c);
            Scan(ends, c + [b]) == if b in ends then (lines + [partial], []) else (lines, partial + [b])
  {
    assert (c + [b])[..|c|] == c;
  }

  lemma {:induction false} PartialIsTail(ends: set<Byte>, c: Bytes)
    ensures |Scan(ends, c).1| <= |c| && Scan(ends, c).1 == c[|c| - |Scan(ends, c).1|..]
    ensures Unbroken(ends, Scan(ends, c).1)
    ensures |Scan(ends, c).1| < |c| ==> c[|c| - |Scan(ends, c).1| - 1] in ends
    decreases |c|
  {
    if c != [] {
      var front, last := c[..|c| - 1], c[|c| - 1];
      PartialIsTail(ends, front);
      if last !in ends {
        TailSnoc(front, last, |front| - |Scan(ends, front).1|);
        assert c == front + [last];
      }
    }
  }

  lemma TailSnoc(front: Bytes, last: Byte, k: nat)
    requires k <= |front|
    ensures (front + [last])[k..] == front[k..] + [last]
    ensures k > 0 ==> (front + [last])[k - 1] == front[k - 1]
  {
  }

  /** The file truncated after its last line end. */
  function Cut(ends: set<Byte>, c: Bytes): Bytes {
    PartialIsTail(ends, c);
    c[..|c| - |Scan(ends, c).1|]
  }

  /** Text after whole lines is scanned on its own. */
  lemma {:induction false} ScanAppend(ends: set<Byte>, a: Bytes, b: Bytes)
    requires Whole(ends, a)
    ensures Scan(ends, a + b) == (Lines(ends, a) + Lines(ends, b), Scan(ends, b).1)
    decreases |b|
  {
    if b == [] {
      assert a + b == a && Lines(ends, a) + [] == Lines(ends, a);
    } else {
      var (lines, partial) := Scan(ends, b[..|b| - 1]);
      ScanAppend(ends, a, b[..|b| - 1]);
      assert (a + b)[..|a + b| - 1] == a + b[..|b| - 1];
      assert Lines(ends, a) + (lines + [partial]) == Lines(ends, a) + lines + [partial];
    }
  }

  lemma {:induction false} ScanPlain(ends: set<Byte>, line: Bytes)
    requires Unbroken(ends, line)
    ensures Scan(ends, line) == ([], line)
    decreases |line|
  {
    if line != [] {
      ScanPlain(ends, line[..|line| - 1]);
      assert line == line[..|line| - 1] + [line[|line| - 1]];
    }
  }

  lemma OneLine(ends: set<Byte>, line: Bytes, end: Byte)
    requires Unbroken(ends, line) && end in ends
    ensures Scan(ends, line + [end]) == ([line], [])
  {
    ScanPlain(ends, line);
    ScanSnoc(ends, line, end);
    assert [] + [line] == [line];
  }

  lemma CutIsWhole(ends: set<Byte>, c: Bytes)
    ensures Whole(ends, Cut(ends, c)) && Lines(ends, Cut(ends, c)) == Lines(ends, c)
    ensures Cut(ends, c) <= c && c == Cut(ends, c) + Scan(ends, c).1
  {
    PartialIsTail(ends, c);
    CutScans(ends, c);
    SplitAt(c, |c| - |Scan(ends, c).1|);
  }

  lemma SplitAt(c: Bytes, k: nat)
    requires k <= |c|
    ensures c[..k] <= c && c == c[..k] + c[k..]
  {
  }

  lemma {:induction false} CutScans(ends: set<Byte>, c: Bytes)
    ensures Whole(ends, Cut(ends, c)) && Lines(ends, Cut(ends, c)) == Lines(ends, c)
    decreases |c|
  {
    PartialIsTail(ends, c);
    if c != [] {
      CutScans(ends, c[..|c| - 1]);
      CutSnoc(ends, c);
    }
  }

  lemma CutSnoc(ends: set<Byte>, c: Bytes)
    requires c != []
    ensures Cut(ends, c) == if c[|c| - 1] in ends then c else Cut(ends, c[..|c| - 1])
  {
    PartialIsTail(ends, c[..|c| - 1]);
  }

  /** Cutting after a whole-line prefix cuts only the rest. */
  lemma CutAppend(ends: set<Byte>, a: Bytes, b: Bytes)
    requires Whole(ends, a)
    ensures Cut(ends, a + b) == a + Cut(ends, b)
  {
    ScanAppend(ends, a, b);
    PartialIsTail(ends, b);
    PrefixAppend(a, b, |b| - |Scan(ends, b).1|);
  }

  lemma PrefixAppend(a: Bytes, b: Bytes, k: nat)
    requires k <= |b|
    ensures (a + b)[..|a| + k] == a + b[..k]
  {
  }

  /** A whole-line prefix followed by no further line end is the cut. */
  lemma CutIsLongest(ends: set<Byte>, c: Bytes, n: nat)
    requires n <= |c| && Whole(ends, c[..n]) && Unbroken(ends, c[n..])
    ensures Cut(ends, c) == c[..n]
  {
    ScanPlain(ends, c[n..]);
    CutAppend(ends, c[..n], c[n..]);
    assert c == c[..n] + c[n..];
    PartialIsTail(ends, c[n..]);
    assert Cut(ends, c[n..]) == [];
  }

  /** Reading one line: from `position` up to the next end, if there is one. */
  function Find(ends: set<Byte>, c: Bytes, from: nat): (n: nat)
    requires from <= |c|
    ensures from <= n <= |c| && (n < |c| ==> c[n] in ends) && Unbroken(ends, c[from..n])
    decreases |c| - from
  {
    if from == |c| || c[from] in ends then from
    else
      var n := Find(ends, c, from + 1);
      assert c[from..n] == [c[from]] + c[from + 1..n];
      n
  }

  /** Reading a line past whole lines adds exactly that line. */
  lemma ReadLine(ends: set<Byte>, c: Bytes, position: nat, n: nat)
    requires position <= n < |c| && Whole(ends, c[..position]) && c[n] in ends && Unbroken(ends, c[position..n])
    ensures Whole(ends, c[..n + 1]) && Lines(ends, c[..n + 1]) == Lines(ends, c[..position]) + [c[position..n]]
    ensures c[..n + 1] == c[..position] + c[position..n] + [c[n]]
  {
    var line := c[position..n];
    assert c[..n + 1] == c[..position] + (line + [c[n]]);
    ScanAppend(ends, c[..position], line + [c[n]]);
    OneLine(ends, line, c[n]);
  }

  // --------------------------------------------------------------------------- text mode

  /** Text mode's view of the bytes: "\n", "\r" and "\r\n" each end a line. The flag says the
      last byte was a carriage return, whose newline is still to be swallowed. */
  function TextScan(c: Bytes): (seq<Bytes>, Bytes, bool) {
    if c == [] then ([], [], false)
    else
      var (lines, partial, afterCr) := TextScan(c[..|c| - 1]);
      var last := c[|c| - 1];
      if last == CR then (lines + [partial], [], true)
      else if last == NL then (if afterCr then (lines, partial, false) else (lines + [partial], [], false))
      else (lines, partial + [last], false)
  }

  /** Lines as a file opened in text mode yields them; an unterminated last line is one too. */
  function TextLines(c: Bytes): seq<Bytes> {
    var (lines, partial, _) := TextScan(c);
    if partial == [] then lines else lines + [partial]
  }

  function NonEmpty(lines: seq<Bytes>): seq<Bytes> {
    if lines == [] then []
    else
      var last := lines[|lines| - 1];
      NonEmpty(lines[..|lines| - 1]) + if last == [] then [] else [last]
  }

  lemma NonEmptySnoc(lines: seq<Bytes>, line: Bytes)
    ensures NonEmpty(lines + [line]) == NonEmpty(lines) + if line == [] then [] else [line]
  {
    assert (lines + [line])[..|lines|] == lines;
  }

  /** Up to empty lines, text mode sees what splitting at both bytes gives. */
  lemma {:induction false} TextScanIsBroken(c: Bytes)
    ensures var ((text, partial, afterCr), (lines, rest)) := (TextScan(c), Scan(BREAKS, c));
            && NonEmpty(text) == NonEmpty(lines) && partial == rest && (afterCr ==> partial == [])
  {
    if c != [] {
      var front := c[..|c| - 1];
      TextScanIsBroken(front);
      TextStep(TextScan(front).0, Scan(BREAKS, front).0, TextScan(front).1);
    }
  }

  lemma TextStep(text: seq<Bytes>, lines: seq<Bytes>, partial: Bytes)
    requires NonEmpty(text) == NonEmpty(lines)
    ensures NonEmpty(text + [partial]) == NonEmpty(lines + [partial])
    ensures partial == [] ==> NonEmpty(text) == NonEmpty(lines + [partial])
  {
    NonEmptySnoc(text, partial);
    NonEmptySnoc(lines, partial);
  }

  // ------------------------------------------------------------------------------- pieces

  /** A line split at its carriage returns. */
  function Pieces(line: Bytes): seq<Bytes> {
    Scan(RETURNS, line).0 + [Scan(RETURNS, line).1]
  }

  function AllPieces(lines: seq<Bytes>): seq<Bytes> {
    if lines == [] then [] else AllPieces(lines[..|lines| - 1]) + Pieces(lines[|lines| - 1])
  }

  lemma AllPiecesSnoc(lines: seq<Bytes>, line: Bytes)
    ensures AllPieces(lines + [line]) == AllPieces(lines) + Pieces(line)
  {
    assert (lines + [line])[..|lines|] == lines;
  }

  /** Splitting at both bytes is splitting at newlines and then each line at its returns. */
  lemma {:induction false} BrokenIsPieces(c: Bytes)
    ensures var (lines, partial) := Scan(LF, c);
            Scan(BREAKS, c) == (AllPieces(lines) + Scan(RETURNS, partial).0, Scan(RETURNS, partial).1)
  {
    if c != [] {
      var front, last := c[..|c| - 1], c[|c| - 1];
      var (lines, partial) := Scan(LF, front);
      BrokenIsPieces(front);
      if last == NL {
        NewlineEndsPieces(lines, partial);
      } else {
        ScanSnoc(RETURNS, partial, last);
        assert last == CR ==>
            AllPieces(lines) + (Scan(RETURNS, partial).0 + [Scan(RETURNS, partial).1]) ==
            AllPieces(lines) + Scan(RETURNS, partial).0 + [Scan(RETURNS, partial).1];
      }
    } else {
      assert AllPieces([]) + Scan(RETURNS, []).0 == [];
    }
  }

  lemma NewlineEndsPieces(lines: seq<Bytes>, partial: Bytes)
    ensures AllPieces(lines + [partial]) + Scan(RETURNS, []).0 ==
            AllPieces(lines) + Scan(RETURNS, partial).0 + [Scan(RETURNS, partial).1]
  {
    AllPiecesSnoc(lines, partial);
  }

  /** On whole lines, text mode's lines are, up to empty ones, the pieces of the byte
      reader's lines. */
  lemma TextLinesArePieces(c: Bytes)
    requires Whole(LF, c)
    ensures NonEmpty(TextLines(c)) == NonEmpty(AllPieces(Lines(LF, c)))
  {
    TextScanIsBroken(c);
    BrokenIsPieces(c);
    assert AllPieces(Lines(LF, c)) + [] == AllPieces(Lines(LF, c));
  }

  /** Pieces put together again. */
  function Joined(pieces: seq<Bytes>): Bytes
    requires pieces != []
  {
    if |pieces| == 1 then pieces[0]
    else Joined(pieces[..|pieces| - 1]) + [CR] + pieces[|pieces| - 1]
  }

  lemma {:induction false} JoinedPieces(line: Bytes)
    ensures Joined(Pieces(line)) == line
  {
    if line == [] {
      assert Pieces(line) == [[]];
    } else {
      var front, last := line[..|line| - 1], line[|line| - 1];
      var (pieces, rest) := Scan(RETURNS, front);
      JoinedPieces(front);
      assert Pieces(front) == pieces + [rest] && (pieces + [rest])[..|pieces|] == pieces;
      if last == CR {
        var longer := pieces + [rest] + [[]];
        assert Pieces(line) == longer && longer[..|longer| - 1] == Pieces(front);
      } else {
        var changed := pieces + [rest + [last]];
        assert Pieces(line) == changed && changed[..|pieces|] == pieces;
        JoinedLast(pieces, rest, last);
      }
      assert line == front + [last];
    }
  }

  lemma JoinedLast(pieces: seq<Bytes>, rest: Bytes, last: Byte)
    ensures Joined(pieces + [rest + [last]]) == Joined(pieces + [rest]) + [last]
  {
    assert (pieces + [rest + [last]])[..|pieces|] == pieces && (pieces + [rest])[..|pieces|] == pieces;
    if pieces != [] {
      assert Joined(pieces) + [CR] + (rest + [last]) == Joined(pieces) + [CR] + rest + [last];
    }
  }

  // ------------------------------------------------------------------------- blank text

  /** `blank` tells the lines that strip to nothing. A carriage return is blank itself and
      ends any character, so text around it is blank just when both sides are. */
  ghost predicate BlankOk(blank: Bytes -> bool) {
    blank([]) && forall a, b {:trigger blank(a + [CR] + b)} :: blank(a + [CR] + b) <==> blank(a) && blank(b)
  }

  /** No carriage return has something on both sides of it in its line. */
  ghost predicate OneSided(blank: Bytes -> bool, line: Bytes) {
    forall i | 0 <= i < |line| && line[i] == CR :: blank(line[..i]) || blank(line[i + 1..])
  }

  function NonBlanks(blank: Bytes -> bool, lines: seq<Bytes>): nat {
    if lines == [] then 0
    else NonBlanks(blank, lines[..|lines| - 1]) + if blank(lines[|lines| - 1]) then 0 else 1
  }

  lemma {:induction false} NonBlanksAppend(blank: Bytes -> bool, a: seq<Bytes>, b: seq<Bytes>)
    ensures NonBlanks(blank, a + b) == NonBlanks(blank, a) + NonBlanks(blank, b)
  {
    if b == [] {
      assert a + b == a;
    } else {
      NonBlanksAppend(blank, a, b[..|b| - 1]);
      assert (a + b)[..|a + b| - 1] == a + b[..|b| - 1];
    }
  }

  /** A line is blank just when all its pieces are. */
  lemma {:induction false} BlankPieces(blank: Bytes -> bool, pieces: seq<Bytes>)
    requires BlankOk(blank) && pieces != []
    ensures blank(Joined(pieces)) <==> NonBlanks(blank, pieces) == 0
    decreases |pieces|
  {
    if |pieces| > 1 {
      BlankPieces(blank, pieces[..|pieces| - 1]);
    } else {
      assert pieces[..0] == [];
    }
  }

  /** Of pieces with at most one that is not blank, the last is blank or all before it are. */
  lemma AtMostOne(blank: Bytes -> bool, pieces: seq<Bytes>)
    requires BlankOk(blank) && |pieces| > 1 && NonBlanks(blank, pieces) <= 1
    ensures var front := pieces[..|pieces| - 1];
            NonBlanks(blank, front) <= 1 && (blank(Joined(front)) || blank(pieces[|pieces| - 1]))
  {
    BlankPieces(blank, pieces[..|pieces| - 1]);
  }

  lemma OneSidedSnoc(blank: Bytes -> bool, a: Bytes, b: Bytes)
    requires BlankOk(blank) && Unbroken(RETURNS, b)
    ensures OneSided(blank, a + [CR] + b) <==> if blank(b) then OneSided(blank, a) else blank(a)
  {
    var line := a + [CR] + b;
    assert line[|a|] == CR && line[..|a|] == a && line[|a| + 1..] == b;
    forall i | 0 <= i < |a|
      ensures line[i] == a[i] && line[..i] == a[..i]
      ensures blank(line[i + 1..]) <==> blank(a[i + 1..]) && blank(b)
      ensures a[i] == CR ==> (blank(a) <==> blank(a[..i]) && blank(a[i + 1..]))
    {
      assert line[i + 1..] == a[i + 1..] + [CR] + b;
      if a[i] == CR {
        assert a == a[..i] + [CR] + a[i + 1..];
      }
    }
    forall i | |a| < i < |line| ensures line[i] != CR {
      assert line[i] == b[i - |a| - 1];
    }
  }

  /** The condition, counted: a line is one-sided just when at most one piece is not blank. */
  lemma {:induction false} OneSidedExact(blank: Bytes -> bool, pieces: seq<Bytes>)
    requires BlankOk(blank) && pieces != [] && forall k | 0 <= k < |pieces| :: Unbroken(RETURNS, pieces[k])
    ensures OneSided(blank, Joined(pieces)) <==> NonBlanks(blank, pieces) <= 1
    decreases |pieces|
  {
    if |pieces| > 1 {
      var front, last := pieces[..|pieces| - 1], pieces[|pieces| - 1];
      OneSidedExact(blank, front);
      BlankPieces(blank, front);
      OneSidedSnoc(blank, Joined(front), last);
    } else {
      assert pieces[..0] == [];
    }
  }

  lemma {:induction false} PiecesUnbroken(line: Bytes)
    ensures forall k | 0 <= k < |Pieces(line)| :: Unbroken(RETURNS, Pieces(line)[k])
  {
    PartialIsTail(RETURNS, line);
    if line != [] {
      var front := line[..|line| - 1];
      PiecesUnbroken(front);
      var (pieces, rest) := Scan(RETURNS, front);
      assert Pieces(front)[|pieces|] == rest && forall k | 0 <= k < |pieces| :: Pieces(front)[k] == pieces[k];
      assert forall k | 0 <= k < |pieces| :: Pieces(line)[k] == pieces[k];
    }
  }

  lemma OneSidedLine(blank: Bytes -> bool, line: Bytes)
    requires BlankOk(blank)
    ensures OneSided(blank, line) <==> NonBlanks(blank, Pieces(line)) <= 1
    ensures blank(line) <==> NonBlanks(blank, Pieces(line)) == 0
  {
    JoinedPieces(line);
    PiecesUnbroken(line);
    OneSidedExact(blank, Pieces(line));
    BlankPieces(blank, Pieces(line));
  }
}
