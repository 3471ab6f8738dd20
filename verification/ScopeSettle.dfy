/** Launching into a systemd scope (`build_scope.py`): telling an idle scope from a busy one
    while an old build may still be draining, what is then done about it, and the escaping
    of the command line. */
module ScopeSettle {
  import opened Base

  // ------------------------------------------------------------------------ idle or not

  /** What a process of the scope's control group shows. */
  datatype Proc = Unreadable | IdleCooker | Other

  /** Idle: the group could be read, and holds nothing but idle cookers. Fails closed. */
  ghost predicate IsIdle(procs: Option<seq<Proc>>) {
    procs.Some? && forall i | 0 <= i < |procs.value| :: procs.value[i].IdleCooker?
  }

  method ScopeIsIdle(procs: Option<seq<Proc>>) returns (idle: bool)
    ensures idle <==> IsIdle(procs)
  {
    if procs.None? {
      return false;
    }
    for i := 0 to |procs.value|
      invariant forall j | 0 <= j < i :: procs.value[j].IdleCooker?
    {
      if !procs.value[i].IdleCooker? {
        return false;
      }
    }
    return true;
  }

  // ------------------------------------------------------------------------------ settling

  /** One turn of the settle loop: the processes sampled, the clock, and whether the unit is
      still loaded after the sleep. */
  datatype Sample = Sample(procs: Option<seq<Proc>>, now: real, loaded: bool)

  datatype Verdict = Absent | Idle | Busy | Undecided

  /** Turn `i` goes on to the next: busy, before the deadline, and still loaded after. */
  ghost predicate GoesOn(samples: seq<Sample>, deadline: real, i: nat)
    requires i < |samples|
  {
    !IsIdle(samples[i].procs) && samples[i].now < deadline && samples[i].loaded
  }

  /** The first `n` turns went on. */
  ghost predicate AllGoOn(samples: seq<Sample>, deadline: real, n: int)
    requires n <= |samples|
  {
    forall i | 0 <= i < n :: GoesOn(samples, deadline, i)
  }

  /** The settle loop over any samples and clock. The first turn that does not go on decides:
      idle if its sample is, else busy if the deadline has passed, else the unit is gone. */
  method SettleScope(loaded: bool, start: real, timeout: real, samples: seq<Sample>)
    returns (verdict: Verdict, turns: nat, sleeps: nat, announced: bool)
    ensures turns <= |samples| && (!loaded ==> verdict.Absent? && turns == 0)
    ensures AllGoOn(samples, start + timeout, turns - 1)
    ensures loaded && !verdict.Undecided? ==> turns > 0 && !GoesOn(samples, start + timeout, turns - 1)
    ensures verdict.Undecided? ==> loaded && turns == |samples| && AllGoOn(samples, start + timeout, turns)
    ensures verdict.Idle? ==> IsIdle(samples[turns - 1].procs)
    ensures verdict.Busy? ==> !IsIdle(samples[turns - 1].procs) && samples[turns - 1].now >= start + timeout
    ensures loaded && verdict.Absent? ==>
              !IsIdle(samples[turns - 1].procs) && samples[turns - 1].now < start + timeout
                  && !samples[turns - 1].loaded
    ensures sleeps == if verdict.Idle? || verdict.Busy? then turns - 1 else turns
    ensures announced <==> sleeps > 0
    ensures sleeps > 0 ==> samples[sleeps - 1].now < start + timeout
    ensures SleepsBounded(start, timeout, samples, sleeps)
  {
    verdict, turns, sleeps, announced := Absent, 0, 0, false;
    if !loaded {
      return;
    }
    var deadline := start + timeout;
    while turns < |samples|
      invariant sleeps == turns <= |samples| && (announced <==> sleeps > 0)
      invariant AllGoOn(samples, deadline, turns)
      invariant sleeps > 0 ==> samples[sleeps - 1].now < deadline
      invariant SleepsBounded(start, timeout, samples, sleeps)
    {
      var sample := samples[turns];
      turns := turns + 1;
      var idle := ScopeIsIdle(sample.procs);
      if idle {
        return Idle, turns, sleeps, announced;
      }
      if sample.now >= deadline {
        return Busy, turns, sleeps, announced;
      }
      announced := true;
      sleeps := sleeps + 1;
      SettlingIsBounded(start, timeout, samples, sleeps);
      if !sample.loaded {
        return Absent, turns, sleeps, announced;
      }
    }
    verdict := Undecided;
  }

  /** A clock that advances by at least the poll per sleep. */
  ghost predicate Advances(start: real, poll: real, samples: seq<Sample>) {
    && (|samples| > 0 ==> samples[0].now >= start)
    && forall i | 0 < i < |samples| :: samples[i].now >= samples[i - 1].now + poll
  }

  /** All sleeps but the last end within the timeout, for any clock and poll. */
  ghost predicate SleepsBounded(start: real, timeout: real, samples: seq<Sample>, sleeps: nat) {
    forall poll | Advances(start, poll, samples) && sleeps > 0 :: (sleeps - 1) as real * poll < timeout
  }

  /** The wait is bounded, whatever ends it: a sleep begins less than the timeout after the
      start, so there are fewer than `timeout / poll` of them beyond the first. */
  lemma SettlingIsBounded(start: real, timeout: real, samples: seq<Sample>, sleeps: nat)
    requires 0 < sleeps <= |samples| && samples[sleeps - 1].now < start + timeout
    ensures SleepsBounded(start, timeout, samples, sleeps)
  {
    forall poll | Advances(start, poll, samples) ensures (sleeps - 1) as real * poll < timeout {
      ClockAt(start, poll, samples, sleeps - 1);
    }
  }

  lemma {:induction false} ClockAt(start: real, poll: real, samples: seq<Sample>, i: nat)
    requires Advances(start, poll, samples) && i < |samples|
    ensures samples[i].now >= start + i as real * poll
  {
    if i == 0 {
      assert i as real * poll == 0.0;
    } else {
      ClockAt(start, poll, samples, i - 1);
      assert i as real * poll == (i - 1) as real * poll + poll;
    }
  }

  // --------------------------------------------------------- what the launch does about it

  /** What the launch did: the unit it runs under, and whether it stopped the old scope. */
  datatype Launch = Launch(base: string, run: Option<string>, stopped: bool, reset: bool)

  /** The first turn that did not go on decides: an idle sample there, and nothing else, has
      the scope stopped or stepped around. */
  ghost predicate DecidedBy(base: string, runId: string, controls: bool, samples: seq<Sample>, deadline: real,
          launch: Option<Launch>)
  {
    forall t | 0 <= t < |samples| && AllGoOn(samples, deadline, t) && !GoesOn(samples, deadline, t) ::
      var idle := IsIdle(samples[t].procs);
      launch == Some(Launch(base, if idle && !controls then Some(runId) else None, idle && controls, true))
  }

  /** The launch: an idle scope is stopped when this run has resource controls and stepped
      around, under a name of its own, when it has none; any other scope is left alone. */
  method LaunchInScope(base: string, runId: string, controls: bool, loaded: bool, start: real, timeout: real,
          samples: seq<Sample>)
    returns (launch: Option<Launch>)
    ensures launch.Some? ==>
              && launch.value.base == base && launch.value.reset
              && (launch.value.stopped ==> controls && IdleSample(loaded, samples))
              && (launch.value.run.Some? ==>
                    !controls && launch.value.run.value == runId && IdleSample(loaded, samples))
    ensures loaded ==> DecidedBy(base, runId, controls, samples, start + timeout, launch)
    ensures !loaded ==> launch == Some(Launch(base, None, false, true))
    ensures (forall i | 0 <= i < |samples| :: !IsIdle(samples[i].procs)) ==>
              launch.None? || launch == Some(Launch(base, None, false, true))
    ensures launch.None? ==> loaded && AllGoOn(samples, start + timeout, |samples|)
  {
    var verdict, turns, sleeps, announced := SettleScope(loaded, start, timeout, samples);
    if loaded {
      OnlyOneDecides(samples, start + timeout, turns, verdict.Undecided?);
    }
    if verdict.Undecided? {
      return None;
    }
    var run: Option<string>, stopped := None, false;
    if verdict.Idle? {
      if controls {
        stopped := true;
      } else {
        run := Some(runId);
      }
    }
    assert verdict.Idle? ==> IsIdle(samples[turns - 1].procs);
    launch := Some(Launch(base, run, stopped, true));
  }

  lemma OnlyOneDecides(samples: seq<Sample>, deadline: real, turns: nat, undecided: bool)
    requires turns <= |samples|
    requires if undecided then turns == |samples| && AllGoOn(samples, deadline, turns)
             else turns > 0 && AllGoOn(samples, deadline, turns - 1) && !GoesOn(samples, deadline, turns - 1)
    ensures forall t | 0 <= t < |samples| && AllGoOn(samples, deadline, t) && !GoesOn(samples, deadline, t) ::
              !undecided && t == turns - 1
  {
  }

  ghost predicate IdleSample(loaded: bool, samples: seq<Sample>) {
    loaded && exists i | 0 <= i < |samples| :: IsIdle(samples[i].procs)
  }

  // ------------------------------------------------------------------- escaping the command

  const D: char := '$'

  /** Every dollar doubled. */
  function EscapeForSystemdRun(s: string): string {
    if s == [] then [] else (if s[0] == D then [D, D] else [s[0]]) + EscapeForSystemdRun(s[1..])
  }

  /** What systemd does to a command line: a doubled dollar becomes one, and a name in
      braces after a dollar becomes the variable's value. */
  function Expand(s: string, env: string -> string): string
    decreases |s|
  {
    if s == [] then []
    else if s[0] == D && |s| > 1 && s[1] == D then [D] + Expand(s[2..], env)
    else if s[0] == D && |s| > 1 && s[1] == '{' && '}' in s[2..] then
      env(s[2..][..Find('}', s[2..])]) + Expand(s[2..][Find('}', s[2..]) + 1..], env)
    else [s[0]] + Expand(s[1..], env)
  }

  function Find(c: char, s: string): (k: nat)
    requires c in s
    ensures k < |s| && s[k] == c && c !in s[..k]
  {
    if s[0] == c then 0 else
      assert s == [s[0]] + s[1..];
      Find(c, s[1..]) + 1
  }

  /** The program is handed the command unchanged, whatever the environment holds. */
  lemma {:induction false} ExpandEscape(s: string, env: string -> string)
    ensures Expand(EscapeForSystemdRun(s), env) == s
  {
    if s != [] {
      var rest := EscapeForSystemdRun(s[1..]);
      ExpandEscape(s[1..], env);
      if s[0] == D {
        assert ([D, D] + rest)[2..] == rest;
      } else {
        assert ([s[0]] + rest)[1..] == rest;
      }
    }
  }

  /** No dollar is doubled, and none starts a braced name that is closed. */
  ghost predicate Clean(s: string) {
    forall i | 0 <= i < |s| - 1 && s[i] == D :: s[i + 1] != D && (s[i + 1] == '{' ==> '}' !in s[i + 2..])
  }

  lemma CleanTail(s: string)
    requires s != []
    ensures Clean(s) <==> Clean(s[1..]) && (s[0] == D && |s| > 1 ==> s[1] != D && (s[1] == '{' ==> '}' !in s[2..]))
  {
    var t := s[1..];
    if Clean(s) {
      forall i | 0 <= i < |t| - 1 && t[i] == D ensures t[i + 1] != D && (t[i + 1] == '{' ==> '}' !in t[i + 2..]) {
        assert s[i + 1] == D && t[i + 2..] == s[i + 1 + 2..];
      }
    }
    if Clean(t) {
      forall i | 0 < i < |s| - 1 && s[i] == D ensures s[i + 1] != D && (s[i + 1] == '{' ==> '}' !in s[i + 2..]) {
        assert t[i - 1] == D && t[i - 1 + 2..] == s[i + 2..];
      }
    }
  }

  lemma {:induction false} CleanIsKept(s: string, env: string -> string)
    requires Clean(s)
    ensures Expand(s, env) == s
  {
    if s != [] {
      CleanTail(s);
      CleanIsKept(s[1..], env);
    }
  }

  /** In an environment of empty values every rewriting shortens. */
  lemma {:induction false} UncleanIsCut(s: string)
    ensures |Expand(s, (name: string) => [])| <= |s|
    ensures !Clean(s) ==> |Expand(s, (name: string) => [])| < |s|
    decreases |s|
  {
    if s != [] {
      CleanTail(s);
      if s[0] == D && |s| > 1 && s[1] == D {
        UncleanIsCut(s[2..]);
      } else if s[0] == D && |s| > 1 && s[1] == '{' && '}' in s[2..] {
        UncleanIsCut(s[2..][Find('}', s[2..]) + 1..]);
      } else {
        UncleanIsCut(s[1..]);
      }
    }
  }

  /** When the escape is needed, exactly: unescaped text comes through unchanged in every
      environment if and only if it is clean. The launcher's own shim is, and is not
      escaped; a user's words need not be, and are. */
  lemma UnescapedExact(s: string)
    ensures (forall env: string -> string :: Expand(s, env) == s) <==> Clean(s)
  {
    UncleanIsCut(s);
    if Clean(s) {
      forall env: string -> string ensures Expand(s, env) == s {
        CleanIsKept(s, env);
      }
    } else {
      assert Expand(s, (name: string) => []) != s;
    }
  }
}
