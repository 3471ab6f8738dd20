/** The wait loop of a stop (`build_stop.py`): it polls a liveness probe against any clock,
    any answers and a Ctrl-C at any point, until the target is gone, the grace is over, or
    the runtime has been unreachable too often in a row. */
module GracefulWait {
  import opened Base

  datatype Answer = Alive | Dead | Error

  /** Where in a round a Ctrl-C arrives: while the probe runs, before the grace check, or
      after it (during the escalation if there is one, otherwise while rendering or asleep). */
  datatype Interrupt = NoInterrupt | AtProbe | AtClock | Late

  /** What the environment does in one round: the probe's answer, the clock, the tasks the
      event log shows as running, and a Ctrl-C if there is one. */
  datatype Round = Round(answer: Answer, now: real, tasks: set<string>, cut: Interrupt)

  datatype Outcome = Drained | Escalated | LostRuntime | StillWaiting

  /** What one unfinished round leaves on screen. */
  datatype View = Rows | Spinner(hint: bool)

  datatype Config = Config(start: real, cap: int, grace: real, stale: real, interval: real)

  /** `cap` answers in a row, the last of them in round `i`, were errors. */
  ghost predicate ErrorWindow(rounds: seq<Round>, cap: int, i: nat)
    requires i < |rounds|
  {
    rounds[i].answer.Error? && cap <= i + 1 && forall j | 0 <= j <= i && i - cap < j :: rounds[j].answer.Error?
  }

  /** The first `n` answers end in exactly `streak` errors. */
  ghost predicate StreakOf(rounds: seq<Round>, n: nat, streak: nat)
    requires n <= |rounds|
  {
    && streak <= n
    && (forall j | n - streak <= j < n :: rounds[j].answer.Error?)
    && (streak < n ==> !rounds[n - streak - 1].answer.Error?)
  }

  lemma StreakMore(rounds: seq<Round>, n: nat, streak: nat, cap: int)
    requires n < |rounds| && StreakOf(rounds, n, streak)
    ensures rounds[n].answer.Error? ==> StreakOf(rounds, n + 1, streak + 1)
    ensures !rounds[n].answer.Error? ==> StreakOf(rounds, n + 1, 0)
    ensures ErrorWindow(rounds, cap, n) <==> rounds[n].answer.Error? && streak + 1 >= cap
  {
    if rounds[n].answer.Error? && streak + 1 < cap && streak < n {
      assert !rounds[n - streak - 1].answer.Error?;
    }
  }

  predicate GraceOver(c: Config, r: Round) {
    c.grace > 0.0 && r.now - c.start >= c.grace
  }

  /** Nothing in round `i` ends the wait. */
  ghost predicate Steady(c: Config, rounds: seq<Round>, i: nat)
    requires i < |rounds|
  {
    && rounds[i].cut.NoInterrupt?
    && !rounds[i].answer.Dead?
    && !GraceOver(c, rounds[i])
    && !ErrorWindow(rounds, c.cap, i)
  }

  /** The round since which the running set has been what it is in round `i`. */
  function ChangedAt(rounds: seq<Round>, i: nat): (j: nat)
    requires i < |rounds|
    ensures j <= i && (forall k | j <= k <= i :: rounds[k].tasks == rounds[i].tasks)
    ensures j > 0 ==> rounds[j - 1].tasks != rounds[j].tasks
  {
    if i > 0 && rounds[i - 1].tasks == rounds[i].tasks then ChangedAt(rounds, i - 1) else i
  }

  predicate FreshRows(c: Config, rounds: seq<Round>, i: nat)
    requires i < |rounds|
  {
    rounds[i].tasks != {} && rounds[i].now - rounds[ChangedAt(rounds, i)].now < c.stale
  }

  /** The last round before `i` that showed a hint, if any did. */
  function LastHintRound(c: Config, rounds: seq<Round>, i: nat): (k: Option<nat>)
    requires i <= |rounds|
    ensures k.Some? ==> k.value < i && HintShown(c, rounds, k.value)
    decreases i, 0
  {
    if i == 0 then None
    else if HintShown(c, rounds, i - 1) then Some(i - 1)
    else LastHintRound(c, rounds, i - 1)
  }

  /** When the last hint was shown, before round `i`; the start if none was. */
  function LastHint(c: Config, rounds: seq<Round>, i: nat): real
    requires i <= |rounds|
    decreases i, 1
  {
    match LastHintRound(c, rounds, i)
    case None => c.start
    case Some(k) => rounds[k].now
  }

  predicate HintShown(c: Config, rounds: seq<Round>, i: nat)
    requires i < |rounds|
    decreases i, 2
  {
    !FreshRows(c, rounds, i) && rounds[i].now - LastHint(c, rounds, i) >= c.interval
  }

  lemma HintStep(c: Config, rounds: seq<Round>, i: nat)
    requires i < |rounds|
    ensures LastHint(c, rounds, i + 1) == if HintShown(c, rounds, i) then rounds[i].now else LastHint(c, rounds, i)
  {
    var _ := LastHintRound(c, rounds, i + 1);
  }

  function ViewOf(c: Config, rounds: seq<Round>, i: nat): View
    requires i < |rounds|
  {
    if FreshRows(c, rounds, i) then Rows else Spinner(HintShown(c, rounds, i))
  }

  /** What is rendered in round `i`: live rows, or a spinner with a hint now and then. */
  method Show(c: Config, rounds: seq<Round>, i: nat, lastChange: real, before: real)
    returns (view: View, lastHint: real)
    requires i < |rounds| && lastChange == rounds[ChangedAt(rounds, i)].now && before == LastHint(c, rounds, i)
    ensures view == ViewOf(c, rounds, i) && lastHint == LastHint(c, rounds, i + 1)
  {
    HintStep(c, rounds, i);
    lastHint := before;
    var now := rounds[i].now;
    var stale := now - lastChange >= c.stale;
    if rounds[i].tasks != {} && !stale {
      view := Rows;
    } else {
      var show := now - lastHint >= c.interval;
      if show {
        lastHint := now;
      }
      view := Spinner(show);
    }
  }

  /** The wait. It ends in the first round that is not steady; there, an interrupted probe
      or a living target means escalation, a dead answer means drained, and a full window of
      errors means the runtime is lost. Escalation is called once when it ends that way, and
      never otherwise, except that a Ctrl-C during an escalation runs it a second time. */
  method Wait(c: Config, rounds: seq<Round>) returns (outcome: Outcome, used: nat, escalations: nat, views: seq<View>)
    ensures used <= |rounds| && |views| == if outcome.StillWaiting? then used else used - 1
    ensures forall i | 0 <= i < |views| :: Steady(c, rounds, i)
    ensures outcome.StillWaiting? ==> used == |rounds|
    ensures !outcome.StillWaiting? ==> used > 0 && !Steady(c, rounds, used - 1)
    ensures outcome.Drained? <==> used > 0 && !rounds[used - 1].cut.AtProbe? && rounds[used - 1].answer.Dead?
    ensures outcome.LostRuntime? <==>
            used > 0 && !rounds[used - 1].cut.AtProbe? && ErrorWindow(rounds, c.cap, used - 1)
    ensures escalations == if !outcome.Escalated? then 0
                           else if rounds[used - 1].cut.Late? && GraceOver(c, rounds[used - 1]) then 2 else 1
    ensures forall i | 0 <= i < |views| :: views[i] == ViewOf(c, rounds, i)
  {
    outcome, used, escalations, views := StillWaiting, 0, 0, [];
    var errorStreak: nat := 0;
    var lastSignature: set<string>, seen := {}, false;
    var lastChange, lastHint := c.start, c.start;
    while used < |rounds|
      invariant used == |views| <= |rounds| && outcome.StillWaiting? && escalations == 0
      invariant forall i | 0 <= i < used :: Steady(c, rounds, i)
      invariant StreakOf(rounds, used, errorStreak)
      invariant seen == (used > 0)
      invariant used > 0 ==>
                  lastSignature == rounds[used - 1].tasks && lastChange == rounds[ChangedAt(rounds, used - 1)].now
      invariant lastHint == LastHint(c, rounds, used)
      invariant forall i | 0 <= i < used :: views[i] == ViewOf(c, rounds, i)
    {
      var round := rounds[used];
      StreakMore(rounds, used, errorStreak, c.cap);
      used := used + 1;
      if round.cut.AtProbe? {
        return Escalated, used, 1, views;
      }
      if round.answer.Dead? {
        return Drained, used, 0, views;
      }
      if round.answer.Error? {
        errorStreak := errorStreak + 1;
        if errorStreak >= c.cap {
          return LostRuntime, used, 0, views;
        }
      } else {
        errorStreak := 0;
      }
      if round.cut.AtClock? {
        return Escalated, used, 1, views;
      }
      var elapsed := round.now - c.start;
      if c.grace > 0.0 && elapsed >= c.grace {
        return Escalated, used, if round.cut.Late? then 2 else 1, views;
      }
      if !seen || round.tasks != lastSignature {
        seen, lastSignature, lastChange := true, round.tasks, round.now;
      }
      if round.cut.Late? {
        return Escalated, used, 1, views;
      }
      var view;
      view, lastHint := Show(c, rounds, used - 1, lastChange, lastHint);
      views := views + [view];
    }
    assert used > 0 ==> Steady(c, rounds, used - 1);
  }

  /** The hint is neither spammed nor withheld: two hints are at least the interval apart,
      and a spinner without one follows a hint, or the start, by less than the interval. */
  lemma {:induction false} HintsArePeriodic(c: Config, rounds: seq<Round>, i: nat)
    requires c.interval > 0.0 && i < |rounds|
    ensures forall k | 0 <= k < i && HintShown(c, rounds, k) && HintShown(c, rounds, i) ::
              rounds[i].now - rounds[k].now >= c.interval
    ensures !FreshRows(c, rounds, i) && !HintShown(c, rounds, i) ==>
              rounds[i].now - c.start < c.interval ||
              exists k | 0 <= k < i :: HintShown(c, rounds, k) && rounds[i].now - rounds[k].now < c.interval
  {
    forall k | 0 <= k < i && HintShown(c, rounds, k) && HintShown(c, rounds, i)
      ensures rounds[i].now - rounds[k].now >= c.interval
    {
      HintNotAfter(c, rounds, i, k);
    }
    var last := LastHintRound(c, rounds, i);
    assert LastHint(c, rounds, i) == if last.Some? then rounds[last.value].now else c.start;
    if !FreshRows(c, rounds, i) && !HintShown(c, rounds, i) && last.Some? {
      var k := last.value;
      assert HintShown(c, rounds, k) && rounds[i].now - rounds[k].now < c.interval;
    }
  }

  lemma {:induction false} HintNotAfter(c: Config, rounds: seq<Round>, i: nat, k: nat)
    requires c.interval > 0.0 && k < i <= |rounds| && HintShown(c, rounds, k)
    ensures rounds[k].now <= LastHint(c, rounds, i)
  {
    HintStep(c, rounds, i - 1);
    if k < i - 1 {
      HintNotAfter(c, rounds, i - 1, k);
    }
  }

  /** With a positive grace and a clock that advances by at least the poll interval per
      sleep, the wait is over within `n + 1` rounds once `n` polls fill the grace. */
  lemma {:induction false} EndsInTime(c: Config, rounds: seq<Round>, poll: real, n: nat)
    requires c.grace > 0.0 && poll > 0.0 && n as real * poll >= c.grace && n < |rounds|
    requires rounds[0].now >= c.start
    requires forall i | 0 < i < |rounds| :: rounds[i].now >= rounds[i - 1].now + poll
    ensures exists i | 0 <= i <= n :: !Steady(c, rounds, i)
  {
    ClockAdvances(c, rounds, poll, n);
    assert !Steady(c, rounds, n);
  }

  lemma {:induction false} ClockAdvances(c: Config, rounds: seq<Round>, poll: real, n: nat)
    requires n < |rounds| && rounds[0].now >= c.start
    requires forall i | 0 < i < |rounds| :: rounds[i].now >= rounds[i - 1].now + poll
    ensures rounds[n].now - c.start >= n as real * poll
  {
    if n > 0 {
      ClockAdvances(c, rounds, poll, n - 1);
      assert n as real * poll == (n - 1) as real * poll + poll;
    }
  }
}
