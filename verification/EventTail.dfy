/** The live tailer of a growing event log (`eventlog.py`). It reads in text mode, so a line
    ends at a newline, a carriage return or both together. */
module EventTail {
  import opened Base
  import opened EventLines
  import opened EventLog

  function Decodable<E>(decode: Bytes -> Option<E>, lines: seq<Bytes>): seq<E> {
    if lines == [] then []
    else Decodable(decode, lines[..|lines| - 1]) + One(decode(lines[|lines| - 1]))
  }

  function One<E>(decoded: Option<E>): seq<E> {
    if decoded.Some? then [decoded.value] else []
  }

  lemma DecodableSnoc<E>(decode: Bytes -> Option<E>, lines: seq<Bytes>, line: Bytes)
    ensures Decodable(decode, lines + [line]) == Decodable(decode, lines) + One(decode(line))
  {
    assert (lines + [line])[..|lines|] == lines;
  }

  /** What happens around one turn of the tailer: the log may appear, `chunk` is appended
      before it reads, `late` after it has read, and the stop flag may be raised. */
  datatype Turn = Turn(create: bool, chunk: Bytes, late: Bytes, stop: bool)

  /** Polls for the log to appear; false when there are no more turns or the stop came first. */
  method WaitForLog(log: LogFile, turns: seq<Turn>) returns (k: nat, stopped: bool)
    modifies log
    ensures k <= |turns| && log.content == old(log.content)
    ensures stopped ==> !log.there && exists t | t in turns :: t.stop
    ensures !stopped ==> log.there || k == |turns|
  {
    k, stopped := 0, false;
    while !log.there && k < |turns|
      invariant k <= |turns| && log.content == old(log.content)
    {
      if turns[k].stop {
        return k, true;
      }
      if turns[k].create {
        log.there := true;
      }
      k := k + 1;
    }
  }

  /** Where the line ending at `n` leaves the reader: a newline right after a carriage return
      belongs to the same end. */
  function PastEnd(c: Bytes, n: nat): (next: nat)
    requires n < |c|
    ensures n < next <= |c|
  {
    if c[n] == CR && n + 1 < |c| && c[n + 1] == NL then n + 2 else n + 1
  }

  /** One turn: a line that has its end is taken, a partial one is left for later. */
  method TakeTurn<E>(decode: Bytes -> Option<E>, log: LogFile, turn: Turn, position: nat)
    returns (decoded: Option<E>, next: nat, lastRead: nat, atEnd: bool)
    requires log.there && position <= |log.content| && Whole(BREAKS, log.content[..position]) && decode([]) == None
    modifies log
    ensures log.there && old(log.content) <= log.content && position <= next <= lastRead <= |log.content|
    ensures Whole(BREAKS, log.content[..next])
    ensures Decodable(decode, Lines(BREAKS, log.content[..next])) ==
            Decodable(decode, Lines(BREAKS, old(log.content)[..position])) + One(decoded)
    ensures atEnd ==> log.content[..next] == Cut(BREAKS, log.content[..lastRead])
  {
    ghost var prefix := log.content[..position];
    log.Append(turn.chunk);
    assert log.content[..position] == prefix;
    var read := log.content;
    var n := Find(BREAKS, read, position);
    lastRead := |read|;
    if n < |read| {
      YieldNext(decode, read, position, n);
      decoded, next, atEnd := decode(read[position..n]), PastEnd(read, n), false;
    } else {
      assert read[position..n] == read[position..];
      CutIsLongest(BREAKS, read, position);
      log.Append(turn.late);
      assert log.content[..lastRead] == read && log.content[..position] == prefix;
      decoded, next, atEnd := None, position, true;
    }
  }

  /** Follows the log for as many turns as are given, or until told to stop. Every line that
      has its end and can be decoded is yielded, in order, once, and never a partial one; on
      stop that is every such line in the log when it was last read. */
  method TailEvents<E>(decode: Bytes -> Option<E>, log: LogFile, turns: seq<Turn>)
    returns (yielded: seq<E>, stopped: bool, position: nat, lastRead: nat)
    requires decode([]) == None
    modifies log
    ensures old(log.content) <= log.content && position <= lastRead <= |log.content|
    ensures Whole(BREAKS, log.content[..position])
    ensures yielded == Decodable(decode, Lines(BREAKS, log.content[..position]))
    ensures stopped && log.there ==> log.content[..position] == Cut(BREAKS, log.content[..lastRead])
    ensures stopped && !log.there ==> yielded == []
    ensures stopped ==> exists t | t in turns :: t.stop
  {
    yielded, position, lastRead := [], 0, 0;
    assert log.content[..0] == [];
    var k: nat;
    k, stopped := WaitForLog(log, turns);
    if stopped {
      return;
    }
    while k < |turns|
      invariant k <= |turns| && !stopped && (k < |turns| ==> log.there) && old(log.content) <= log.content
      invariant position <= lastRead <= |log.content| && Whole(BREAKS, log.content[..position])
      invariant yielded == Decodable(decode, Lines(BREAKS, log.content[..position]))
    {
      var decoded, next, read, atEnd := TakeTurn(decode, log, turns[k], position);
      position, lastRead := next, read;
      yielded := yielded + One(decoded);
      if atEnd && turns[k].stop {
        stopped := true;
        return;
      }
      k := k + 1;
    }
  }

  /** Reading from `position` to `next` has met whole lines, which yield `got`. */
  ghost predicate Yields<E>(decode: Bytes -> Option<E>, c: Bytes, position: nat, next: nat, got: seq<E>)
    requires position <= next <= |c|
  {
    && Whole(BREAKS, c[..next])
    && Decodable(decode, Lines(BREAKS, c[..next])) == Decodable(decode, Lines(BREAKS, c[..position])) + got
  }

  lemma YieldNext<E>(decode: Bytes -> Option<E>, c: Bytes, position: nat, n: nat)
    requires position <= n < |c| && Whole(BREAKS, c[..position]) && c[n] in BREAKS && Unbroken(BREAKS, c[position..n])
    requires decode([]) == None
    ensures Yields(decode, c, position, PastEnd(c, n), One(decode(c[position..n])))
  {
    YieldLine(decode, c, position, n, c[position..n]);
    if PastEnd(c, n) == n + 2 {
      EmptyLine(decode, c, n + 1);
      YieldsOn(decode, c, position, n + 1, n + 2, One(decode(c[position..n])));
    }
  }

  lemma YieldLine<E>(decode: Bytes -> Option<E>, c: Bytes, position: nat, n: nat, line: Bytes)
    requires position <= n < |c| && Whole(BREAKS, c[..position]) && c[n] in BREAKS
    requires line == c[position..n] && Unbroken(BREAKS, line)
    ensures Yields(decode, c, position, n + 1, One(decode(line)))
  {
    ReadLine(BREAKS, c, position, n);
    DecodableSnoc(decode, Lines(BREAKS, c[..position]), line);
  }

  lemma YieldsOn<E>(decode: Bytes -> Option<E>, c: Bytes, position: nat, n: nat, next: nat, got: seq<E>)
    requires position <= n <= next <= |c| && Yields(decode, c, position, n, got) && Yields(decode, c, n, next, [])
    ensures Yields(decode, c, position, next, got)
  {
    assert got + [] == got;
  }

  /** A line end right after another one yields nothing. */
  lemma EmptyLine<E>(decode: Bytes -> Option<E>, c: Bytes, n: nat)
    requires n < |c| && Whole(BREAKS, c[..n]) && c[n] in BREAKS && decode([]) == None
    ensures Yields(decode, c, n, n + 1, [])
  {
    assert c[n..n] == [];
    YieldLine(decode, c, n, n, []);
  }

  /** What is yielded is what text mode gives for the same bytes: the lines it would read
      from a log ending there. */
  lemma YieldedIsText<E>(decode: Bytes -> Option<E>, c: Bytes)
    requires Whole(BREAKS, c) && decode([]) == None
    ensures Decodable(decode, Lines(BREAKS, c)) == Decodable(decode, TextLines(c))
  {
    TextScanIsBroken(c);
    EmptyYieldsNothing(decode, Lines(BREAKS, c));
    EmptyYieldsNothing(decode, TextLines(c));
  }

  lemma {:induction false} EmptyYieldsNothing<E>(decode: Bytes -> Option<E>, lines: seq<Bytes>)
    requires decode([]) == None
    ensures Decodable(decode, NonEmpty(lines)) == Decodable(decode, lines)
  {
    if lines != [] {
      var front, last := lines[..|lines| - 1], lines[|lines| - 1];
      EmptyYieldsNothing(decode, front);
      if last != [] {
        DecodableSnoc(decode, NonEmpty(front), last);
      } else {
        assert NonEmpty(lines) == NonEmpty(front);
      }
    }
  }
}
