/** Escaping text for a markup-enabled console (`markup_safe` in `diagnostics.py`), against
    what the console makes of backslashes before a tag. */
module Markup {
  import opened Base

  const BS := '\\'

  predicate TagChar(c: char) {
    'a' <= c <= 'z' || c == '#' || c == '/' || c == '@'
  }

  /** The first square bracket in `s`, if any, is a closing one. */
  predicate Closes(s: string) {
    s != "" && (s[0] == ']' || (s[0] != '[' && Closes(s[1..])))
  }

  /** `s` begins with a tag-like token. */
  predicate IsTag(s: string) {
    |s| >= 2 && s[0] == '[' && TagChar(s[1]) && Closes(s[2..])
  }

  /** How many backslashes `s` begins with. */
  function Run(s: string): (n: nat)
    ensures n <= |s|
  {
    if s == "" || s[0] != BS then 0 else 1 + Run(s[1..])
  }

  function Slashes(n: nat): (s: string)
    ensures |s| == n
  {
    if n == 0 then "" else [BS] + Slashes(n - 1)
  }

  // ------------------------------------------------------------- text as backslash runs

  /** Text as the runs of backslashes between its other characters. */
  datatype Text = End(run: nat) | Step(run: nat, c: char, rest: Text)

  function WithRun(t: Text, run: nat): Text {
    t.(run := run)
  }

  function Parse(s: string): (t: Text) {
    if s == "" then End(0)
    else if s[0] == BS then
      var t := Parse(s[1..]);
      WithRun(t, t.run + 1)
    else Step(0, s[0], Parse(s[1..]))
  }

  function Unparse(t: Text): string {
    match t
    case End(run) => Slashes(run)
    case Step(run, c, rest) => Slashes(run) + [c] + Unparse(rest)
  }

  ghost predicate Proper(t: Text) {
    t.Step? ==> t.c != BS && Proper(t.rest)
  }

  predicate ClosesText(t: Text) {
    t.Step? && (t.c == ']' || (t.c != '[' && ClosesText(t.rest)))
  }

  /** The character that ends the first run starts a tag-like token. */
  predicate IsTagText(t: Text) {
    t.Step? && t.c == '[' && t.rest.Step? && t.rest.run == 0 && TagChar(t.rest.c) && ClosesText(t.rest.rest)
  }

  /** The run a substitution leaves before a token. */
  function Settled(n: nat): nat {
    if n % 2 == 0 then 2 * n + 1 else n
  }

  /** Every run before a token settled, and nothing else touched. */
  function SafeText(t: Text): Text {
    match t
    case End(_) => t
    case Step(run, c, rest) => Step(if IsTagText(t) then Settled(run) else run, c, SafeText(rest))
  }

  lemma {:induction false} UnparseParse(s: string)
    ensures Unparse(Parse(s)) == s && Proper(Parse(s)) && Run(s) == Parse(s).run
  {
    if s != "" {
      UnparseParse(s[1..]);
      assert s == [s[0]] + s[1..];
      var t := Parse(s[1..]);
      if s[0] == BS {
        UnparseWithRun(t);
      } else {
        assert Slashes(0) + [s[0]] + Unparse(t) == [s[0]] + Unparse(t);
      }
    }
  }

  lemma UnparseWithRun(t: Text)
    ensures Unparse(WithRun(t, t.run + 1)) == [BS] + Unparse(t)
  {
    assert Slashes(t.run + 1) == [BS] + Slashes(t.run);
  }

  lemma {:induction false} ParseUnparse(t: Text)
    requires Proper(t)
    ensures Parse(Unparse(t)) == t
    decreases t, t.run
  {
    if t.run > 0 {
      var less := WithRun(t, (t.run - 1) as nat);
      ParseRun(t.run, if t.End? then "" else [t.c] + Unparse(t.rest));
      assert Unparse(t) == Slashes(t.run) + if t.End? then "" else [t.c] + Unparse(t.rest);
      if t.Step? { ParseUnparse(t.rest); }
    } else if t.Step? {
      ParseUnparse(t.rest);
      assert Unparse(t) == [t.c] + Unparse(t.rest);
    }
  }

  lemma {:induction false} ParseRun(n: nat, s: string)
    ensures Parse(Slashes(n) + s) == WithRun(Parse(s), Parse(s).run + n)
  {
    if n > 0 {
      ParseRun(n - 1, s);
      assert (Slashes(n) + s)[1..] == Slashes(n - 1) + s;
    } else {
      assert Slashes(0) + s == s;
    }
  }

  lemma {:induction false} ClosesParsed(s: string)
    ensures Closes(s) == ClosesText(Parse(s))
  {
    if s != "" {
      ClosesParsed(s[1..]);
    }
  }

  /** A tag-like token can start only where a run has ended. */
  lemma IsTagParsed(s: string)
    requires s != "" && s[0] != BS
    ensures IsTag(s) == IsTagText(Parse(s))
  {
    if |s| >= 2 && s[0] == '[' && s[1] != BS {
      assert s[1..][1..] == s[2..];
      ClosesParsed(s[2..]);
    }
  }

  // ------------------------------------------------------------------ the substitution

  /** Where the first closing bracket is. */
  function CloseAt(s: string): (n: nat)
    requires Closes(s)
    ensures n < |s| && s[n] == ']' && forall i | 0 <= i < n :: s[i] !in {'[', ']'}
  {
    if s[0] == ']' then 0
    else
      var n := CloseAt(s[1..]);
      assert forall i | 0 < i < n + 1 :: s[i] == s[1..][i - 1];
      n + 1
  }

  /** The pattern's second group: the length of the token `s` begins with. */
  function TokenLength(s: string): (n: nat)
    requires IsTag(s)
    ensures 3 <= n <= |s|
  {
    CloseAt(s[2..]) + 3
  }

  /** The pattern's first group, which takes as many pairs of backslashes as it can and gives
      them back one by one until the token follows: at most `k` pairs. */
  function TryPairs(s: string, k: nat): (m: Option<nat>)
    requires 2 * k <= |s|
    ensures m.Some? ==> m.value <= k && IsTag(s[2 * m.value..])
  {
    if IsTag(s[2 * k..]) then Some(k) else if k == 0 then None else TryPairs(s, k - 1)
  }

  /** The match that begins where `s` does, if there is one: its pairs and its length. `after`
      says a backslash comes right before, which the pattern's lookbehind refuses. */
  function Match(after: bool, s: string): (m: Option<(nat, nat)>)
    ensures m.Some? ==> 2 * m.value.0 < m.value.1 <= |s|
  {
    if after then None
    else
      var m := TryPairs(s, Run(s) / 2);
      if m.None? then None else Some((m.value, 2 * m.value + TokenLength(s[2 * m.value..])))
  }

  /** The substitution, left to right: at a match the pairs are doubled and one more backslash
      put before the token, and matching resumes after it; else one character is copied. */
  function Substitute(after: bool, s: string): string
    decreases |s|
  {
    if s == "" then ""
    else
      match Match(after, s)
      case Some((pairs, end)) =>
        s[..2 * pairs] + s[..2 * pairs] + [BS] + s[2 * pairs..end] + Substitute(false, s[end..])
      case None => [s[0]] + Substitute(s[0] == BS, s[1..])
  }

  function MarkupSafe(s: string): string {
    Substitute(false, s)
  }

  /** What the pattern asks of a match of `k` pairs and `end` characters in all. */
  ghost predicate Matches(after: bool, s: string, k: nat, end: nat) {
    && !after && 2 * k + 3 <= end <= |s|
    && (forall i | 0 <= i < 2 * k :: s[i] == BS)
    && s[2 * k] == '[' && TagChar(s[2 * k + 1]) && s[end - 1] == ']'
    && forall i | 2 * k + 2 <= i < end - 1 :: s[i] != '['
  }

  lemma {:induction false} RunIs(s: string)
    ensures forall i | 0 <= i < Run(s) :: s[i] == BS
    ensures Run(s) < |s| ==> s[Run(s)] != BS
  {
    if s != "" && s[0] == BS {
      RunIs(s[1..]);
      assert forall i | 0 < i < Run(s) :: s[i] == s[1..][i - 1];
      assert Run(s) < |s| ==> s[Run(s)] == s[1..][Run(s) - 1];
    }
  }

  /** A token can follow the whole run only. */
  lemma {:induction false} TryPairsExact(s: string, k: nat)
    requires 2 * k <= Run(s)
    ensures TryPairs(s, k) == if 2 * k == Run(s) && IsTag(s[2 * k..]) then Some(k) else None
  {
    RunIs(s);
    if 2 * k < Run(s) {
      assert s[2 * k..][0] == BS;
    }
    if k > 0 {
      TryPairsExact(s, k - 1);
    }
  }

  lemma {:induction false} ClosesAt(s: string, n: nat)
    requires n < |s| && s[n] == ']' && forall i | 0 <= i < n :: s[i] != '['
    ensures Closes(s) && CloseAt(s) <= n
  {
    if s[0] != ']' {
      assert forall i | 0 <= i < n - 1 :: s[1..][i] == s[i + 1];
      ClosesAt(s[1..], n - 1);
    }
  }

  /** What is found is what the pattern asks for, with the shortest token; and nothing is
      missed. */
  lemma MatchExact(after: bool, s: string)
    ensures match Match(after, s)
            case Some((k, end)) =>
              Matches(after, s, k, end) && forall k', end' | Matches(after, s, k', end') :: k' == k && end <= end'
            case None => forall k', end' :: !Matches(after, s, k', end')
  {
    RunIs(s);
    if !after {
      TryPairsExact(s, Run(s) / 2);
      var m := Match(after, s);
      if m.Some? {
        var k := m.value.0;
        assert forall i | 0 <= i < CloseAt(s[2 * k..][2..]) :: s[2 * k + 2 + i] == s[2 * k..][2..][i];
      }
      forall k', end' | Matches(after, s, k', end') ensures m.Some? && m.value.0 == k' && m.value.1 <= end' {
        MatchIsFound(s, k', end');
      }
    }
  }

  lemma MatchIsFound(s: string, k: nat, end: nat)
    requires Matches(false, s, k, end)
    ensures Run(s) == 2 * k && Match(false, s).Some? && Match(false, s).value.0 == k && Match(false, s).value.1 <= end
  {
    RunIs(s);
    var token := s[2 * k..];
    assert forall i | 0 <= i < end - 2 * k - 3 :: token[2..][i] == s[2 * k + 2 + i];
    ClosesAt(token[2..], end - 2 * k - 3);
    assert Run(s) == 2 * k;
    TryPairsExact(s, k);
  }

  // --------------------------------------------------------------- the substitution on runs

  /** What follows the first run and the character that ends it. */
  function Tail(s: string): string
    requires Run(s) < |s|
  {
    s[Run(s) + 1..]
  }

  /** Parsing takes off one run and the character that ends it at a time. */
  lemma {:induction false} RunSplit(s: string)
    ensures s == Slashes(Run(s)) + s[Run(s)..]
    ensures Run(s) < |s| ==> s[Run(s)] != BS && Parse(s) == Step(Run(s), s[Run(s)], Parse(Tail(s)))
    ensures Run(s) == |s| ==> Parse(s) == End(Run(s))
  {
    if s != "" && s[0] == BS {
      RunSplit(s[1..]);
      assert s == [BS] + s[1..];
      assert s[Run(s)..] == s[1..][Run(s[1..])..];
      assert Slashes(Run(s)) == [BS] + Slashes(Run(s[1..]));
    } else {
      assert s[0..] == s;
    }
  }

  /** The substitution as it looks on runs: a match takes a whole run, which must be even, and
      a token; without one the run and the character after it are copied. */
  function Substituted(t: Text): Text {
    match t
    case End(_) => t
    case Step(run, c, rest) =>
      if run % 2 == 0 && IsTagText(t) then Step(2 * run + 1, c, CopyToken(rest))
      else Step(run, c, Substituted(rest))
  }

  /** Copies the rest of a token, then goes on substituting. */
  function CopyToken(t: Text): Text {
    match t
    case End(_) => t
    case Step(run, c, rest) => Step(run, c, if c == ']' then Substituted(rest) else CopyToken(rest))
  }

  /** What is left of `s` when its first run and the character after it are copied. */
  function Copied(s: string): string {
    Slashes(Run(s)) + if Run(s) == |s| then "" else [s[Run(s)]] + Substitute(false, Tail(s))
  }

  lemma CopiedMore(s: string)
    requires s != "" && s[0] == BS
    ensures Copied(s) == [BS] + Copied(s[1..])
  {
    var n := Run(s[1..]);
    if n < |s[1..]| {
      TailMore(s);
      LongerBy(BS, Slashes(n), [s[n + 1]] + Substitute(false, Tail(s)));
    } else {
      LongerBy(BS, Slashes(n), "");
    }
  }

  lemma TailMore(s: string)
    requires s != "" && s[0] == BS && Run(s) < |s|
    ensures Tail(s) == Tail(s[1..]) && s[Run(s)] == s[1..][Run(s) - 1]
  {
  }

  lemma LongerBy(c: char, a: string, b: string)
    ensures [c] + a + b == [c] + (a + b)
  {
  }

  lemma CopiedOne(s: string)
    requires s != "" && s[0] != BS
    ensures Copied(s) == [s[0]] + Substitute(false, s[1..])
  {
    assert Tail(s) == s[1..] && Slashes(0) == "";
  }

  lemma CopyStep(after: bool, s: string)
    requires s != "" && Match(after, s).None?
    ensures Substitute(after, s) == [s[0]] + Substitute(s[0] == BS, s[1..])
  {
  }

  /** Past the first character of a run nothing matches before the run's end. */
  lemma {:induction false} RunIsCopied(s: string)
    ensures Substitute(true, s) == Copied(s)
  {
    if s != "" {
      CopyStep(true, s);
      if s[0] == BS {
        RunIsCopied(s[1..]);
        CopiedMore(s);
      } else {
        CopiedOne(s);
      }
    }
  }

  lemma UnmatchedRun(s: string)
    requires Match(false, s).None?
    ensures Substitute(false, s) == Copied(s)
  {
    if s != "" {
      CopyStep(false, s);
      if s[0] == BS {
        RunIsCopied(s[1..]);
        CopiedMore(s);
      } else {
        CopiedOne(s);
      }
    }
  }

  /** Only at an even run with a token after it is there a match, and it takes both. */
  lemma MatchAtRun(s: string)
    ensures var n := Run(s);
            if n % 2 == 0 && IsTag(s[n..]) then Match(false, s) == Some((n / 2, n + TokenLength(s[n..])))
            else Match(false, s) == None
  {
    TryPairsExact(s, Run(s) / 2);
  }

  lemma {:induction false} SlashesTwice(a: nat, b: nat)
    ensures Slashes(a) + Slashes(b) == Slashes(a + b)
  {
    if a > 0 {
      SlashesTwice(a - 1, b);
      assert [BS] + (Slashes(a - 1) + Slashes(b)) == [BS] + Slashes(a - 1) + Slashes(b);
    }
  }

  /** The token after a run, and what comes after the token. */
  function TokenOf(s: string): string
    requires IsTag(s)
  {
    s[..TokenLength(s)]
  }

  function PastToken(s: string): string
    requires IsTag(s)
  {
    s[TokenLength(s)..]
  }

  lemma TokenSplit(rest: string)
    requires IsTag(rest)
    ensures rest == TokenOf(rest) + PastToken(rest) && |TokenOf(rest)| == TokenLength(rest)
  {
  }

  ghost predicate Doubling(out: string, run: string, token: string, more: string) {
    out == run + run + [BS] + token + more
  }

  /** The match at the start of `s`, as the three pieces it cuts the text into. */
  ghost predicate MatchedAs(s: string, run: string, token: string, past: string) {
    && s == run + token + past && |run| % 2 == 0
    && Match(false, s) == Some((|run| / 2, |run| + |token|))
  }

  lemma MatchStep(s: string, run: string, token: string, past: string)
    requires MatchedAs(s, run, token, past)
    ensures Doubling(Substitute(false, s), run, token, Substitute(false, past))
  {
    assert s[..|run|] == run && s[|run|..|run| + |token|] == token && s[|run| + |token|..] == past;
  }

  lemma Doubled(n: nat)
    ensures Slashes(n) + Slashes(n) + [BS] == Slashes(2 * n + 1)
  {
    SlashesTwice(n, n);
    SlashesTwice(2 * n, 1);
    assert Slashes(1) == [BS];
  }

  lemma MatchedParts(s: string, rest: string, run: string)
    requires Run(s) % 2 == 0 && rest == s[Run(s)..] && IsTag(rest) && run == Slashes(Run(s))
    ensures MatchedAs(s, run, TokenOf(rest), PastToken(rest))
  {
    TokenSplit(rest);
    MatchedText(s, rest, run);
    MatchAtRun(s);
  }

  lemma MatchedText(s: string, rest: string, run: string)
    requires rest == s[Run(s)..] && IsTag(rest) && run == Slashes(Run(s))
    ensures s == run + TokenOf(rest) + PastToken(rest)
  {
    RunSplit(s);
    TokenSplit(rest);
    Regrouped(run, TokenOf(rest), PastToken(rest));
  }

  /** The even run is written doubled and one longer. */
  ghost predicate Written(out: string, n: nat, token: string, more: string) {
    out == Slashes(2 * n + 1) + token + more
  }

  lemma MatchedRun(s: string, rest: string)
    requires Run(s) % 2 == 0 && rest == s[Run(s)..] && IsTag(rest)
    ensures Written(Substitute(false, s), Run(s), TokenOf(rest), Substitute(false, PastToken(rest)))
  {
    RunDoubles(s, rest);
    DoublingIsWritten(Substitute(false, s), Run(s), TokenOf(rest), Substitute(false, PastToken(rest)));
  }

  lemma RunDoubles(s: string, rest: string)
    requires Run(s) % 2 == 0 && rest == s[Run(s)..] && IsTag(rest)
    ensures Doubling(Substitute(false, s), Slashes(Run(s)), TokenOf(rest), Substitute(false, PastToken(rest)))
  {
    MatchedParts(s, rest, Slashes(Run(s)));
    MatchStep(s, Slashes(Run(s)), TokenOf(rest), PastToken(rest));
  }

  lemma DoublingIsWritten(out: string, n: nat, token: string, more: string)
    requires Doubling(out, Slashes(n), token, more)
    ensures Written(out, n, token, more)
  {
    Doubled(n);
  }

  lemma Regrouped(a: string, b: string, c: string)
    ensures a + b + c == a + (b + c)
  {
  }

  lemma RunsMatched(t: Text)
    requires t.Step? && t.run % 2 == 0 && IsTagText(t)
    ensures Unparse(Substituted(t)) == Slashes(2 * t.run + 1) + [t.c] + Unparse(CopyToken(t.rest))
  {
  }

  lemma RunsUnmatched(t: Text)
    requires t.Step? && !(t.run % 2 == 0 && IsTagText(t))
    ensures Unparse(Substituted(t)) == Slashes(t.run) + [t.c] + Unparse(Substituted(t.rest))
  {
  }

  /** The engine on strings and the substitution on runs are the same function. */
  lemma {:induction false} SubstituteIsOnRuns(s: string)
    ensures Substitute(false, s) == Unparse(Substituted(Parse(s)))
    decreases |s|, 1
  {
    RunSplit(s);
    MatchAtRun(s);
    if Run(s) == |s| {
      UnmatchedRun(s);
    } else {
      TagAfterRun(s, s[Run(s)..]);
      if Run(s) % 2 == 0 && IsTag(s[Run(s)..]) {
        OnRunsMatched(s, s[Run(s)..]);
      } else {
        UnmatchedRun(s);
        SubstituteIsOnRuns(Tail(s));
        RunsUnmatched(Parse(s));
        Regrouped(Slashes(Run(s)), [s[Run(s)]], Substitute(false, Tail(s)));
      }
    }
  }

  lemma {:induction false} OnRunsMatched(s: string, rest: string)
    requires Run(s) < |s| && Run(s) % 2 == 0 && rest == s[Run(s)..] && IsTag(rest)
    ensures Substitute(false, s) == Unparse(Substituted(Parse(s)))
    decreases |s|, 0
  {
    RunSplit(s);
    TagAfterRun(s, rest);
    MatchedRun(s, rest);
    TokenInTail(s, rest);
    TokenIsCopied(Tail(s), TokenOf(rest)[1..], PastToken(rest));
    RunsMatched(Parse(s));
    Regrouped([s[Run(s)]], TokenOf(rest)[1..], Substitute(false, PastToken(rest)));
    Regrouped4(Slashes(2 * Run(s) + 1), [s[Run(s)]], TokenOf(rest)[1..], Substitute(false, PastToken(rest)));
  }

  lemma Regrouped4(a: string, b: string, c: string, d: string)
    ensures a + (b + c) + d == a + b + (c + d)
  {
  }

  lemma TagAfterRun(s: string, rest: string)
    requires Run(s) < |s| && rest == s[Run(s)..]
    ensures IsTag(rest) == IsTagText(Parse(s))
  {
    RunSplit(s);
    RunSplit(rest);
    IsTagParsed(rest);
    assert Tail(rest) == Tail(s);
  }

  lemma TokenShape(rest: string, n: nat)
    requires n + 2 < |rest| && rest[1] != ']' && rest[2..][n] == ']'
    requires forall i | 0 <= i < n :: rest[2..][i] != ']'
    ensures Token(rest[..n + 3][1..])
  {
    assert forall i | 0 <= i < n :: rest[i + 2] == rest[2..][i];
  }

  lemma Slices(s: string, run: nat, rest: string, n: nat)
    requires run < |s| && rest == s[run..] && 0 < n <= |rest|
    ensures rest[..n] == [s[run]] + rest[..n][1..] && s[run + 1..] == rest[..n][1..] + rest[n..]
  {
  }

  lemma TokenInTail(s: string, rest: string)
    requires Run(s) < |s| && rest == s[Run(s)..] && IsTag(rest)
    ensures TokenOf(rest) == [s[Run(s)]] + TokenOf(rest)[1..]
    ensures Tail(s) == TokenOf(rest)[1..] + PastToken(rest) && Token(TokenOf(rest)[1..])
  {
    Slices(s, Run(s), rest, TokenLength(rest));
    TokenShape(rest, CloseAt(rest[2..]));
  }

  /** The rest of a token: up to its closing bracket. */
  ghost predicate Token(s: string) {
    s != "" && s[|s| - 1] == ']' && forall i | 0 <= i < |s| - 1 :: s[i] != ']'
  }

  /** A token is copied up to its closing bracket, and the engine goes on after it. */
  lemma {:induction false} TokenIsCopied(s: string, token: string, past: string)
    requires Token(token) && s == token + past
    ensures Unparse(CopyToken(Parse(s))) == token + Substitute(false, past)
    decreases |s|, 0
  {
    if s[0] == ']' {
      assert token == [s[0]] && s[1..] == past;
      SubstituteIsOnRuns(past);
      CopyTokenEnds(past);
    } else {
      assert s[1..] == token[1..] + past && token == [s[0]] + token[1..];
      TokenIsCopied(s[1..], token[1..], past);
      CopyTokenGoesOn(s);
      Regrouped([s[0]], token[1..], Substitute(false, past));
    }
  }

  lemma CopyTokenEnds(past: string)
    ensures Unparse(CopyToken(Step(0, ']', Parse(past)))) == [']'] + Unparse(Substituted(Parse(past)))
  {
    assert Slashes(0) == "";
  }

  lemma CopyTokenGoesOn(s: string)
    requires s != "" && s[0] != ']'
    ensures Unparse(CopyToken(Parse(s))) == [s[0]] + Unparse(CopyToken(Parse(s[1..])))
  {
    var t := Parse(s[1..]);
    if s[0] == BS {
      assert CopyToken(WithRun(t, t.run + 1)) == WithRun(CopyToken(t), CopyToken(t).run + 1);
      UnparseWithRun(CopyToken(t));
    } else {
      assert Slashes(0) == "";
    }
  }

  lemma {:induction false} CopyTokenIsSubstituted(t: Text)
    requires ClosesText(t)
    ensures CopyToken(t) == Substituted(t)
  {
    if t.c != ']' {
      CopyTokenIsSubstituted(t.rest);
    }
  }

  // --------------------------------------------------------------------- on runs

  /** Resuming after a token skips nothing that could match: the scan settles every run. */
  lemma {:induction false} ScanSettlesRuns(t: Text)
    ensures Substituted(t) == SafeText(t)
  {
    if t.Step? {
      ScanSettlesRuns(t.rest);
      if IsTagText(t) {
        CopyTokenIsSubstituted(t.rest);
      }
    }
  }

  lemma {:induction false} SafeKeepsBrackets(t: Text)
    ensures ClosesText(SafeText(t)) == ClosesText(t) && (Proper(t) ==> Proper(SafeText(t)))
    ensures IsTagText(SafeText(t)) == IsTagText(t)
  {
    if t.Step? {
      SafeKeepsBrackets(t.rest);
      if t.rest.Step? {
        SafeKeepsBrackets(t.rest.rest);
      }
    }
  }

  /** Every tag-like token is preceded by an odd run. */
  predicate EscapedText(t: Text) {
    t.Step? ==> (IsTagText(t) ==> t.run % 2 == 1) && EscapedText(t.rest)
  }

  lemma SettledIsOdd(n: nat)
    ensures Settled(n) % 2 == 1 && (Settled(n) == n <==> n % 2 == 1)
  {
    if n % 2 == 0 {
      DoubledIsOdd(n);
    }
  }

  lemma DoubledIsOdd(n: nat)
    ensures (2 * n + 1) % 2 == 1
  {
  }

  lemma {:induction false} SafeIsEscaped(t: Text)
    ensures EscapedText(SafeText(t)) && (SafeText(t) == t <==> EscapedText(t))
  {
    SafeKeepsBrackets(t);
    if t.Step? {
      SettledIsOdd(t.run);
      SafeIsEscaped(t.rest);
    }
  }

  /** The lengths of the runs before tag-like tokens, in order. */
  function TagRuns(t: Text): seq<nat> {
    if t.End? then [] else (if IsTagText(t) then [t.run] else []) + TagRuns(t.rest)
  }

  /** The text without the runs before tag-like tokens. */
  function BareText(t: Text): Text {
    match t
    case End(_) => t
    case Step(run, c, rest) => Step(if IsTagText(t) then 0 else run, c, BareText(rest))
  }

  lemma {:induction false} SafeChangesTagRuns(t: Text)
    ensures BareText(SafeText(t)) == BareText(t) && |TagRuns(SafeText(t))| == |TagRuns(t)|
    ensures forall k | 0 <= k < |TagRuns(t)| :: TagRuns(SafeText(t))[k] == Settled(TagRuns(t)[k])
  {
    SafeKeepsBrackets(t);
    if t.Step? {
      SafeChangesTagRuns(t.rest);
    }
  }

  // ------------------------------------------------------------------ main results

  lemma ParsedOutput(s: string)
    ensures Parse(MarkupSafe(s)) == SafeText(Parse(s))
  {
    SubstituteIsOnRuns(s);
    ScanSettlesRuns(Parse(s));
    UnparseParse(s);
    SafeKeepsBrackets(Parse(s));
    ParseUnparse(SafeText(Parse(s)));
  }

  /** Every tag-like token of the output is preceded by an odd run of backslashes, and
      text is left alone exactly when that already holds for all its tokens. */
  lemma SafeOutput(s: string)
    ensures EscapedText(Parse(MarkupSafe(s)))
    ensures MarkupSafe(s) == s <==> EscapedText(Parse(s))
  {
    ParsedOutput(s);
    SafeIsEscaped(Parse(s));
    UnparseParse(s);
    UnparseParse(MarkupSafe(s));
  }

  /** Escaping twice is escaping once. */
  lemma Idempotent(s: string)
    ensures MarkupSafe(MarkupSafe(s)) == MarkupSafe(s)
  {
    SafeOutput(s);
    SafeOutput(MarkupSafe(s));
  }

  /** Nothing but the runs before tag-like tokens changes: the rest of the text is the same,
      the tokens are as many, an even run of n becomes 2n + 1 and an odd one stays. */
  lemma OnlyTagRunsChange(s: string)
    ensures var (before, after) := (Parse(s), Parse(MarkupSafe(s)));
            && Unparse(BareText(after)) == Unparse(BareText(before))
            && |TagRuns(after)| == |TagRuns(before)|
            && forall k | 0 <= k < |TagRuns(before)| :: TagRuns(after)[k] == Settled(TagRuns(before)[k])
  {
    ParsedOutput(s);
    SafeChangesTagRuns(Parse(s));
  }

  // ------------------------------------------------------------------ what gets printed

  /** The text after a tag-like token's closing bracket. */
  function AfterToken(t: Text): Text {
    match t
    case End(_) => t
    case Step(_, c, rest) => if c == ']' then rest else AfterToken(rest)
  }

  lemma {:induction false} AfterTokenShorter(t: Text)
    ensures t.Step? ==> AfterToken(t) < t
  {
    if t.Step? { AfterTokenShorter(t.rest); }
  }

  /** What the console prints: backslashes before a tag-like token count in pairs; an
      unpaired one shows the token as text, none leaves a live tag that prints nothing;
      before any other opening bracket one backslash is dropped. */
  function Printed(t: Text): string {
    match t
    case End(run) => Slashes(run)
    case Step(run, c, rest) =>
      if IsTagText(t) then
        if run % 2 == 1 then Slashes(run / 2) + [c] + Printed(rest)
        else
          AfterTokenShorter(rest);
          Slashes(run / 2) + Printed(AfterToken(rest))
      else Slashes(if c == '[' && run > 0 then run - 1 else run) + [c] + Printed(rest)
  }

  /** The two limits on what can be printed: an odd run before a token, and a backslash
      before an opening bracket that starts none. */
  predicate PrintsAsRecorded(t: Text) {
    t.Step? ==> (if IsTagText(t) then t.run % 2 == 0 else t.c != '[' || t.run == 0) && PrintsAsRecorded(t.rest)
  }

  lemma {:induction false} PrintedText(t: Text)
    ensures var (out, recorded) := (Printed(SafeText(t)), Unparse(t));
            && |out| <= |recorded|
            && (|out| == |recorded| <==> PrintsAsRecorded(t))
            && (PrintsAsRecorded(t) ==> out == recorded)
  {
    SafeKeepsBrackets(t);
    if t.Step? {
      PrintedText(t.rest);
    }
  }

  /** Escaped text prints exactly as it was recorded if and only if neither limit applies. */
  lemma PrintedExact(s: string)
    ensures Printed(Parse(MarkupSafe(s))) == s <==> PrintsAsRecorded(Parse(s))
  {
    ParsedOutput(s);
    UnparseParse(s);
    PrintedText(Parse(s));
  }
}
