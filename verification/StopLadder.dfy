/** The SIGTERM then SIGKILL ladder over a build's processes (`build_stop.py`), against a
    kernel that may answer every probe and every signal as it likes. */
module StopLadder {
  import opened Base

  datatype Sig = Term | Kill

  /** Whom a signal is for, by the layer of the ladder that sends it: the wrapper's process
      group, the process named in the lock file, or a process found by its arguments. */
  datatype Target = Group(id: int) | LockServer(pid: int) | Scoped(pid: int)

  function Number(t: Target): int {
    match t
    case Group(id) => id
    case LockServer(pid) => pid
    case Scoped(pid) => pid
  }

  datatype Event =
    | Verified(pid: int, ok: bool)
    | Checked(target: Target, alive: bool)
    | Sent(target: Target, sig: Sig, delivered: bool)
    | Sleep

  /** The answer to the `n`th question; what the list does not give is no. */
  predicate Says(answers: seq<bool>, n: nat) {
    n < |answers| && answers[n]
  }

  /** The operating system: any list of answers, and what was asked of it, in order. */
  class Kernel {
    const answers: seq<bool>
    var trace: seq<Event>

    constructor (answers: seq<bool>)
      ensures trace == [] && this.answers == answers
    {
      this.answers := answers;
      trace := [];
    }

    /** `kill` and `killpg`: a number that is not positive is refused, not sent. */
    method Signal(target: Target, sig: Sig) returns (delivered: bool)
      modifies this`trace
      ensures trace == if Number(target) <= 0 then old(trace) else old(trace) + [Sent(target, sig, delivered)]
      ensures delivered <==> Number(target) > 0 && Says(answers, |old(trace)|)
    {
      if Number(target) <= 0 {
        return false;
      }
      delivered := Says(answers, |trace|);
      trace := trace + [Sent(target, sig, delivered)];
    }

    method Alive(target: Target) returns (alive: bool)
      modifies this`trace
      ensures trace == old(trace) + [Checked(target, alive)] && alive == Says(answers, |old(trace)|)
    {
      alive := Says(answers, |trace|);
      trace := trace + [Checked(target, alive)];
    }

    method VerifyServer(pid: int) returns (ok: bool)
      modifies this`trace
      ensures trace == old(trace) + [Verified(pid, ok)] && ok == Says(answers, |old(trace)|)
    {
      ok := Says(answers, |trace|);
      trace := trace + [Verified(pid, ok)];
    }

    method Pause()
      modifies this`trace
      ensures trace == old(trace) + [Sleep]
    {
      trace := trace + [Sleep];
    }
  }

  // ------------------------------------------------------------------ what a trace may hold

  /** A signal to the process of the lock file comes after its identity was verified, with
      no sleep in between. */
  ghost predicate LockVerified(trace: seq<Event>) {
    forall i | 0 <= i < |trace| && trace[i].Sent? && trace[i].target.LockServer? :: VerifiedBefore(trace, i)
  }

  ghost predicate VerifiedBefore(trace: seq<Event>, i: nat)
    requires i < |trace| && trace[i].Sent?
  {
    exists j | 0 <= j < i ::
      trace[j] == Verified(Number(trace[i].target), true) && forall k | j <= k < i :: trace[k] != Sleep
  }

  /** A SIGKILL comes after a SIGTERM that was delivered and the sleep after that, and its
      target was found alive since that sleep. */
  ghost predicate KillsAreLate(trace: seq<Event>) {
    forall i | 0 <= i < |trace| && trace[i].Sent? && trace[i].sig.Kill? :: KillIsLate(trace, i)
  }

  ghost predicate KillIsLate(trace: seq<Event>, i: nat)
    requires i < |trace| && trace[i].Sent?
  {
    exists j, k, m | 0 <= j < k < m < i ::
      trace[j].Sent? && trace[j].sig.Term? && trace[j].delivered && trace[k] == Sleep &&
      trace[m] == Checked(trace[i].target, true)
  }

  ghost predicate OnlyPositive(trace: seq<Event>) {
    forall i | 0 <= i < |trace| && trace[i].Sent? :: Number(trace[i].target) > 0
  }

  ghost predicate AimedAt(trace: seq<Event>, targets: seq<Target>) {
    forall i | 0 <= i < |trace| && trace[i].Sent? :: trace[i].target in targets
  }

  predicate AnyDelivered(events: seq<Event>) {
    exists i | 0 <= i < |events| :: events[i].Sent? && events[i].delivered
  }

  lemma AnyAppend(a: seq<Event>, b: seq<Event>)
    ensures AnyDelivered(a + b) <==> AnyDelivered(a) || AnyDelivered(b)
  {
    if i :| 0 <= i < |a| && a[i].Sent? && a[i].delivered {
      assert (a + b)[i] == a[i];
    }
    if i :| 0 <= i < |b| && b[i].Sent? && b[i].delivered {
      assert (a + b)[|a| + i] == b[i];
    }
  }

  /** The audit list: the signals delivered to scoped processes, in order. */
  function Audit(events: seq<Event>): seq<(int, Sig)> {
    AuditTo(events, |events|)
  }

  function AuditTo(events: seq<Event>, k: nat): seq<(int, Sig)>
    requires k <= |events|
  {
    if k == 0 then []
    else
      var e := events[k - 1];
      AuditTo(events, k - 1) + (if e.Sent? && e.target.Scoped? && e.delivered then [(e.target.pid, e.sig)] else [])
  }

  lemma {:induction false} AuditPrefix(a: seq<Event>, b: seq<Event>, k: nat)
    requires k <= |a|
    ensures AuditTo(a + b, k) == AuditTo(a, k)
  {
    if k > 0 {
      AuditPrefix(a, b, k - 1);
    }
  }

  lemma {:induction false} AuditSuffix(a: seq<Event>, b: seq<Event>, k: nat)
    requires k <= |b|
    ensures AuditTo(a + b, |a| + k) == AuditTo(a, |a|) + AuditTo(b, k)
  {
    if k > 0 {
      AuditSuffix(a, b, k - 1);
      assert (a + b)[|a| + k - 1] == b[k - 1];
    } else {
      AuditPrefix(a, b, |a|);
    }
  }

  lemma AuditAppend(a: seq<Event>, b: seq<Event>)
    ensures Audit(a + b) == Audit(a) + Audit(b)
  {
    AuditSuffix(a, b, |b|);
  }

  // ------------------------------------------------------------------------- the two rungs

  /** The targets of both rungs, in order. */
  function Targets(pgid: Option<int>, server: Option<int>, scoped: seq<int>): seq<Target> {
    (if pgid.Some? && pgid.value > 0 then [Group(pgid.value)] else []) +
    (if server.Some? then [LockServer(server.value)] else []) +
    Scopeds(scoped)
  }

  function Scopeds(pids: seq<int>): seq<Target> {
    seq(|pids|, i requires 0 <= i < |pids| => Scoped(pids[i]))
  }

  /** What the SIGTERM rung does for one target, `n` questions into the trace. */
  function TermOf(answers: seq<bool>, n: nat, t: Target): seq<Event> {
    if Number(t) <= 0 then [] else [Sent(t, Term, Says(answers, n))]
  }

  /** What the SIGKILL rung does for one target: it must be alive, and the lock process must
      be verified again; then it is sent the signal. */
  function KillOf(answers: seq<bool>, n: nat, t: Target): seq<Event> {
    if !Says(answers, n) then [Checked(t, false)]
    else if t.LockServer? then
      if !Says(answers, n + 1) || t.pid <= 0 then [Checked(t, true), Verified(t.pid, Says(answers, n + 1))]
      else [Checked(t, true), Verified(t.pid, true), Sent(t, Kill, Says(answers, n + 2))]
    else if Number(t) <= 0 then [Checked(t, true)]
    else [Checked(t, true), Sent(t, Kill, Says(answers, n + 1))]
  }

  function BlockOf(sig: Sig, answers: seq<bool>, n: nat, t: Target): seq<Event> {
    if sig.Term? then TermOf(answers, n, t) else KillOf(answers, n, t)
  }

  /** One rung: the first `k` targets in turn, from `n` questions into the trace. */
  function Rung(sig: Sig, answers: seq<bool>, n: nat, targets: seq<Target>, k: nat): seq<Event>
    requires k <= |targets|
  {
    if k == 0 then []
    else
      var front := Rung(sig, answers, n, targets, k - 1);
      front + BlockOf(sig, answers, n + |front|, targets[k - 1])
  }

  lemma Grown(before: seq<Event>, front: seq<Event>, block: seq<Event>)
    ensures before + front + block == before + (front + block)
    ensures Audit(front + block) == Audit(front) + Audit(block)
    ensures AnyDelivered(front + block) <==> AnyDelivered(front) || AnyDelivered(block)
  {
    AuditAppend(front, block);
    AnyAppend(front, block);
  }

  lemma AuditOne(e: Event)
    ensures AnyDelivered([e]) <==> e.Sent? && e.delivered
    ensures Audit([e]) == if e.Sent? && e.target.Scoped? && e.delivered then [(e.target.pid, e.sig)] else []
  {
    assert AuditTo([e], 0) == [] && [e][0] == e;
  }

  /** SIGTERM to one target. */
  method Terminate(kernel: Kernel, t: Target) returns (delivered: bool)
    modifies kernel`trace
    ensures kernel.trace == old(kernel.trace) + TermOf(kernel.answers, |old(kernel.trace)|, t)
    ensures delivered <==> AnyDelivered(TermOf(kernel.answers, |old(kernel.trace)|, t))
    ensures Audit(TermOf(kernel.answers, |old(kernel.trace)|, t)) == if delivered && t.Scoped? then
              [(t.pid, Term)] else []
  {
    AuditOne(Sent(t, Term, Says(kernel.answers, |kernel.trace|)));
    delivered := kernel.Signal(t, Term);
  }

  /** SIGKILL to one target, if it survived and may still be signalled. */
  method Reap(kernel: Kernel, t: Target) returns (delivered: bool)
    modifies kernel`trace
    ensures kernel.trace == old(kernel.trace) + KillOf(kernel.answers, |old(kernel.trace)|, t)
    ensures Audit(KillOf(kernel.answers, |old(kernel.trace)|, t)) == if delivered && t.Scoped? then
              [(t.pid, Kill)] else []
  {
    AuditOfKill(kernel.answers, |kernel.trace|, t);
    var alive := kernel.Alive(t);
    if !alive {
      return false;
    }
    if t.LockServer? {
      var may := kernel.VerifyServer(t.pid);
      if !may {
        return false;
      }
    }
    delivered := kernel.Signal(t, Kill);
  }

  lemma AuditOfKill(answers: seq<bool>, n: nat, t: Target)
    ensures var block := KillOf(answers, n, t);
            var last := block[|block| - 1];
            Audit(block) == if last.Sent? && last.delivered && t.Scoped? then [(t.pid, Kill)] else []
  {
    var block := KillOf(answers, n, t);
    assert AuditTo(block, 0) == [];
    assert AuditTo(block, 1) == [];
    assert |block| > 1 ==> AuditTo(block, 2) == if |block| == 2 then Audit(block) else [];
  }

  /** A rung after its first `i` targets. */
  ghost predicate RungState(sig: Sig, answers: seq<bool>, before: seq<Event>, now: seq<Event>, targets: seq<Target>,
          i: nat, killed: seq<(int, Sig)>)
  {
    && i <= |targets|
    && now == before + Rung(sig, answers, |before|, targets, i)
    && killed == Audit(Rung(sig, answers, |before|, targets, i))
  }

  lemma RungStep(sig: Sig, answers: seq<bool>, before: seq<Event>, now: seq<Event>, targets: seq<Target>, i: nat,
          killed: seq<(int, Sig)>, block: seq<Event>)
    requires i < |targets| && RungState(sig, answers, before, now, targets, i, killed)
    requires block == BlockOf(sig, answers, |now|, targets[i])
    ensures RungState(sig, answers, before, now + block, targets, i + 1, killed + Audit(block))
    ensures AnyDelivered(Rung(sig, answers, |before|, targets, i + 1)) <==>
            AnyDelivered(Rung(sig, answers, |before|, targets, i)) || AnyDelivered(block)
  {
    var front := Rung(sig, answers, |before|, targets, i);
    assert |now| == |before| + |front|;
    Grown(before, front, block);
  }

  /** SIGTERM to the next target of the rung. */
  method TerminateNext(kernel: Kernel, targets: seq<Target>, i: nat, before: seq<(int, Sig)>, ghost start: seq<Event>)
    returns (killed: seq<(int, Sig)>, delivered: bool)
    requires i < |targets| && RungState(Term, kernel.answers, start, kernel.trace, targets, i, before)
    modifies kernel`trace
    ensures RungState(Term, kernel.answers, start, kernel.trace, targets, i + 1, killed)
    ensures AnyDelivered(Rung(Term, kernel.answers, |start|, targets, i + 1)) <==>
            AnyDelivered(Rung(Term, kernel.answers, |start|, targets, i)) || delivered
  {
    ghost var block := TermOf(kernel.answers, |kernel.trace|, targets[i]);
    RungStep(Term, kernel.answers, start, kernel.trace, targets, i, before, block);
    delivered := Terminate(kernel, targets[i]);
    killed := before + if delivered && targets[i].Scoped? then [(targets[i].pid, Term)] else [];
  }

  /** SIGTERM to the group, the lock process and each scoped process, in that order. */
  method TermRung(kernel: Kernel, targets: seq<Target>) returns (killed: seq<(int, Sig)>, any: bool)
    modifies kernel`trace
    ensures var added := Rung(Term, kernel.answers, |old(kernel.trace)|, targets, |targets|);
            kernel.trace == old(kernel.trace) + added && (any <==> AnyDelivered(added)) && killed == Audit(added)
  {
    killed, any := [], false;
    ghost var start := kernel.trace;
    for i := 0 to |targets|
      invariant RungState(Term, kernel.answers, start, kernel.trace, targets, i, killed)
      invariant any <==> AnyDelivered(Rung(Term, kernel.answers, |start|, targets, i))
    {
      var delivered: bool;
      killed, delivered := TerminateNext(kernel, targets, i, killed, start);
      any := any || delivered;
    }
  }

  /** SIGKILL to the next target of the rung, if it may still be signalled. */
  method ReapNext(kernel: Kernel, targets: seq<Target>, i: nat, before: seq<(int, Sig)>, ghost start: seq<Event>)
    returns (killed: seq<(int, Sig)>)
    requires i < |targets| && RungState(Kill, kernel.answers, start, kernel.trace, targets, i, before)
    modifies kernel`trace
    ensures RungState(Kill, kernel.answers, start, kernel.trace, targets, i + 1, killed)
  {
    ghost var block := KillOf(kernel.answers, |kernel.trace|, targets[i]);
    RungStep(Kill, kernel.answers, start, kernel.trace, targets, i, before, block);
    var delivered := Reap(kernel, targets[i]);
    killed := before + if delivered && targets[i].Scoped? then [(targets[i].pid, Kill)] else [];
  }

  /** SIGKILL to whatever of the same targets is still alive. */
  method KillRung(kernel: Kernel, targets: seq<Target>) returns (killed: seq<(int, Sig)>)
    modifies kernel`trace
    ensures var added := Rung(Kill, kernel.answers, |old(kernel.trace)|, targets, |targets|);
            kernel.trace == old(kernel.trace) + added && killed == Audit(added)
  {
    killed := [];
    ghost var start := kernel.trace;
    for i := 0 to |targets|
      invariant RungState(Kill, kernel.answers, start, kernel.trace, targets, i, killed)
    {
      killed := ReapNext(kernel, targets, i, killed, start);
    }
  }

  // ------------------------------------------------------------------ the ladder is safe

  /** Every signal in a SIGTERM rung, by itself. */
  ghost predicate TermShape(events: seq<Event>, targets: seq<Target>) {
    forall i | 0 <= i < |events| ::
      events[i].Sent? && events[i].sig.Term? && Number(events[i].target) > 0 && events[i].target in targets
  }

  /** Every signal in a SIGKILL rung, with the answers right before it. */
  ghost predicate KillShape(events: seq<Event>, targets: seq<Target>) {
    forall i | 0 <= i < |events| :: events[i] != Sleep && (events[i].Sent? ==> KillAt(events, i, targets))
  }

  ghost predicate KillAt(events: seq<Event>, i: nat, targets: seq<Target>)
    requires i < |events| && events[i].Sent?
  {
    var t := events[i].target;
    && events[i].sig.Kill? && Number(t) > 0 && t in targets
    && if t.LockServer? then i >= 2 && events[i - 1] == Verified(t.pid, true) && events[i - 2] == Checked(t, true)
       else i >= 1 && events[i - 1] == Checked(t, true)
  }

  lemma {:induction false} TermShaped(answers: seq<bool>, n: nat, targets: seq<Target>, k: nat)
    requires k <= |targets|
    ensures TermShape(Rung(Term, answers, n, targets, k), targets)
  {
    if k > 0 {
      TermShaped(answers, n, targets, k - 1);
    }
  }

  lemma {:induction false} KillShaped(answers: seq<bool>, n: nat, targets: seq<Target>, k: nat)
    requires k <= |targets|
    ensures KillShape(Rung(Kill, answers, n, targets, k), targets)
  {
    if k > 0 {
      KillShaped(answers, n, targets, k - 1);
      var front, block := KillRungLast(answers, n, targets, k);
      KillShapeAppend(front, block, targets);
    }
  }

  lemma KillRungLast(answers: seq<bool>, n: nat, targets: seq<Target>, k: nat)
    returns (front: seq<Event>, block: seq<Event>)
    requires 0 < k <= |targets|
    ensures front == Rung(Kill, answers, n, targets, k - 1) && Rung(Kill, answers, n, targets, k) == front + block
    ensures KillShape(block, targets)
  {
    front := Rung(Kill, answers, n, targets, k - 1);
    block := KillOf(answers, n + |front|, targets[k - 1]);
    KillBlockShaped(answers, n + |front|, targets[k - 1], targets);
  }

  lemma KillBlockShaped(answers: seq<bool>, n: nat, t: Target, targets: seq<Target>)
    requires t in targets
    ensures KillShape(KillOf(answers, n, t), targets)
  {
  }

  lemma KillShapeAppend(front: seq<Event>, block: seq<Event>, targets: seq<Target>)
    requires KillShape(front, targets) && KillShape(block, targets)
    ensures KillShape(front + block, targets)
  {
    var all := front + block;
    forall i | 0 <= i < |all| ensures all[i] != Sleep && (all[i].Sent? ==> KillAt(all, i, targets)) {
      if i < |front| {
        assert all[i] == front[i] && (i > 0 ==> all[i - 1] == front[i - 1]) && (i > 1 ==> all[i - 2] == front[i - 2]);
      } else {
        var k := i - |front|;
        assert all[i] == block[k] && (k > 0 ==> all[i - 1] == block[k - 1]) && (k > 1 ==> all[i - 2] == block[k - 2]);
      }
    }
  }

  /** What the whole ladder asks and sends, in three parts: the lock process is verified;
      every target is sent SIGTERM; and if that reached anything, the survivors are sent
      SIGKILL after one sleep. */
  datatype Ladder = Ladder(head: seq<Event>, first: seq<Event>, second: seq<Event>)
  {
    predicate Sleeps() { AnyDelivered(first) }

    function Trace(): seq<Event> {
      if Sleeps() then head + first + [Sleep] + second else head + first
    }

    /** A trace to which the ladder's is added, part by part. */
    function AddedTo(before: seq<Event>): seq<Event> {
      if Sleeps() then before + head + first + [Sleep] + second else before + head + first
    }

    function Killed(): seq<(int, Sig)> {
      if Sleeps() then Audit(first) + Audit(second) else Audit(first)
    }

    lemma AddedIsTrace(before: seq<Event>)
      ensures AddedTo(before) == before + Trace()
    {
    }
  }

  function LadderHead(answers: seq<bool>, n: nat, lockPid: Option<int>): seq<Event> {
    if lockPid.Some? then [Verified(lockPid.value, Says(answers, n))] else []
  }

  function LadderOn(answers: seq<bool>, n: nat, head: seq<Event>, targets: seq<Target>): Ladder {
    var first := Rung(Term, answers, n + |head|, targets, |targets|);
    var second := Rung(Kill, answers, n + |head| + |first| + 1, targets, |targets|);
    Ladder(head, first, if AnyDelivered(first) then second else [])
  }

  /** The process of the lock file, if it was verified. */
  function ServerOf(answers: seq<bool>, n: nat, lockPid: Option<int>): Option<int> {
    if lockPid.Some? && Says(answers, n) then lockPid else None
  }

  function LadderOf(answers: seq<bool>, n: nat, pgid: Option<int>, lockPid: Option<int>, scoped: seq<int>): Ladder {
    LadderOn(answers, n, LadderHead(answers, n, lockPid), Targets(pgid, ServerOf(answers, n, lockPid), scoped))
  }

  /** The process of the lock file, if it may be signalled. */
  method VerifiedServer(kernel: Kernel, lockPid: Option<int>) returns (server: Option<int>)
    modifies kernel`trace
    ensures kernel.trace == old(kernel.trace) + LadderHead(kernel.answers, |old(kernel.trace)|, lockPid)
    ensures server == ServerOf(kernel.answers, |old(kernel.trace)|, lockPid)
  {
    server := lockPid;
    if lockPid.Some? {
      var ok := kernel.VerifyServer(lockPid.value);
      if !ok {
        server := None;
      }
    }
  }

  /** From `n` questions into the trace `start`: the first rung, and if it delivered anything
      the sleep and the second. */
  ghost predicate ClimbedFrom(answers: seq<bool>, n: nat, targets: seq<Target>, start: seq<Event>, now: seq<Event>,
          killed: seq<(int, Sig)>)
  {
    var first := Rung(Term, answers, n, targets, |targets|);
    if AnyDelivered(first) then
      var second := Rung(Kill, answers, n + |first| + 1, targets, |targets|);
      now == start + first + [Sleep] + second && killed == Audit(first) + Audit(second)
    else now == start + first && killed == Audit(first)
  }

  lemma ClimbedLadder(answers: seq<bool>, n: nat, before: seq<Event>, head: seq<Event>, targets: seq<Target>,
          now: seq<Event>, killed: seq<(int, Sig)>)
    requires n == |before| + |head| && ClimbedFrom(answers, n, targets, before + head, now, killed)
    ensures var ladder := LadderOn(answers, |before|, head, targets);
            now == ladder.AddedTo(before) && killed == ladder.Killed()
  {
  }

  /** The sleep, and the second rung. */
  method PauseAndReap(kernel: Kernel, targets: seq<Target>) returns (killed: seq<(int, Sig)>)
    modifies kernel`trace
    ensures var second := Rung(Kill, kernel.answers, |old(kernel.trace)| + 1, targets, |targets|);
            kernel.trace == old(kernel.trace) + [Sleep] + second && killed == Audit(second)
  {
    kernel.Pause();
    killed := KillRung(kernel, targets);
  }

  /** Both rungs, and the sleep between them; with nothing to wait out, the first only. */
  method Climb(kernel: Kernel, targets: seq<Target>) returns (killed: seq<(int, Sig)>)
    modifies kernel`trace
    ensures ClimbedFrom(kernel.answers, |old(kernel.trace)|, targets, old(kernel.trace), kernel.trace, killed)
  {
    var any: bool;
    killed, any := TermRung(kernel, targets);
    if any {
      var more := PauseAndReap(kernel, targets);
      killed := killed + more;
    }
  }

  /** The same, as the ladder whose head has already been asked. */
  method ClimbLadder(kernel: Kernel, targets: seq<Target>, ghost before: seq<Event>, ghost head: seq<Event>)
    returns (killed: seq<(int, Sig)>)
    requires kernel.trace == before + head
    modifies kernel`trace
    ensures var ladder := LadderOn(kernel.answers, |before|, head, targets);
            kernel.trace == ladder.AddedTo(before) && killed == ladder.Killed()
  {
    ghost var n := |kernel.trace|;
    killed := Climb(kernel, targets);
    ClimbedLadder(kernel.answers, n, before, head, targets, kernel.trace, killed);
  }

  /** The lock process is only a target once verified. */
  method EscalateHost(kernel: Kernel, pgid: Option<int>, lockPid: Option<int>, scoped: seq<int>)
    returns (killed: seq<(int, Sig)>)
    modifies kernel`trace
    ensures var ladder := LadderOf(kernel.answers, |old(kernel.trace)|, pgid, lockPid, scoped);
            kernel.trace == ladder.AddedTo(old(kernel.trace)) && killed == ladder.Killed()
  {
    ghost var before := kernel.trace;
    var server := VerifiedServer(kernel, lockPid);
    killed := ClimbLadder(kernel, Targets(pgid, server, scoped), before,
        LadderHead(kernel.answers, |before|, lockPid));
  }

  /** The ladder of a child process: its group is signalled only when the child leads it. */
  method EscalateProcessTree(kernel: Kernel, leader: int, ownGroup: Option<int>, lockPid: Option<int>,
          scoped: seq<int>)
    returns (killed: seq<(int, Sig)>)
    modifies kernel`trace
    ensures var ladder := LadderOf(kernel.answers, |old(kernel.trace)|, LedGroup(leader, ownGroup), lockPid, scoped);
            kernel.trace == ladder.AddedTo(old(kernel.trace)) && killed == ladder.Killed()
  {
    var pgid := ownGroup;
    if pgid.Some? && pgid.value != leader {
      pgid := None;
    }
    killed := EscalateHost(kernel, pgid, lockPid, scoped);
  }

  /** `ownGroup` is what the kernel says the child's group is, if the child still exists. */
  function LedGroup(leader: int, ownGroup: Option<int>): Option<int> {
    if ownGroup == Some(leader) then ownGroup else None
  }

  /** One trace in three parts, put together. */
  lemma PartsAreSafe(head: seq<Event>, first: seq<Event>, second: seq<Event>, targets: seq<Target>)
    requires TermShape(first, targets) && KillShape(second, targets)
    requires |head| <= 1 && (|head| == 1 ==> head[0].Verified?)
    requires forall t | t in targets && t.LockServer? :: head == [Verified(t.pid, true)]
    requires AnyDelivered(first)
    ensures var trace := head + first + [Sleep] + second;
            LockVerified(trace) && KillsAreLate(trace) && OnlyPositive(trace) && AimedAt(trace, targets)
  {
    var trace, cut := head + first + [Sleep] + second, |head| + |first|;
    var d :| 0 <= d < |first| && first[d].Sent? && first[d].sig.Term? && first[d].delivered;
    assert trace[|head| + d] == first[d] && trace[cut] == Sleep;
    assert forall k | 0 <= k < |head| :: trace[k] == head[k];
    forall i | 0 <= i < |trace| && trace[i].Sent?
      ensures Number(trace[i].target) > 0 && trace[i].target in targets
      ensures trace[i].target.LockServer? ==> VerifiedBefore(trace, i)
      ensures trace[i].sig.Kill? ==> KillIsLate(trace, i)
    {
      if i < cut {
        TermPart(head, first, [Sleep] + second, targets, i);
        assert trace == head + first + ([Sleep] + second);
      } else {
        assert i > cut;
        var k := i - cut - 1;
        assert trace[i] == second[k] && KillAt(second, k, targets);
        assert trace[i - 1] == second[k - 1];
        if trace[i].target.LockServer? {
          assert trace[i - 2] == second[k - 2];
          assert trace[i - 2] == Checked(trace[i].target, true);
        } else {
          assert trace[i - 1] == Checked(trace[i].target, true);
        }
      }
    }
  }

  lemma TermPart(head: seq<Event>, first: seq<Event>, rest: seq<Event>, targets: seq<Target>, i: nat)
    requires TermShape(first, targets) && |head| <= 1 && |head| <= i < |head| + |first|
    requires forall t | t in targets && t.LockServer? :: head == [Verified(t.pid, true)]
    ensures var trace := head + first + rest;
            && trace[i].Sent? && trace[i].sig.Term? && Number(trace[i].target) > 0 && trace[i].target in targets
            && (trace[i].target.LockServer? ==> VerifiedBefore(trace, i))
  {
    var trace := head + first + rest;
    assert trace[i] == first[i - |head|];
    if trace[i].target.LockServer? {
      assert trace[0] == head[0];
      forall k | 0 <= k < i ensures trace[k] != Sleep {
        if k >= |head| {
          assert trace[k] == first[k - |head|];
        }
      }
    }
  }

  lemma TargetsExact(pgid: Option<int>, server: Option<int>, scoped: seq<int>, t: Target)
    ensures t in Targets(pgid, server, scoped) <==>
            match t
            case Group(g) => g > 0 && pgid == Some(g)
            case LockServer(p) => server == Some(p)
            case Scoped(p) => p in scoped
  {
    var s := Scopeds(scoped);
    if t.Scoped? && t.pid in scoped {
      var k :| 0 <= k < |scoped| && scoped[k] == t.pid;
      assert s[k] == t;
    }
  }

  /** Safety of the ladder, for all answers: the lock process is signalled only after it was
      verified, with no sleep in between; SIGKILL comes only after a delivered SIGTERM and
      the sleep, and to targets found alive since; no number that is not positive is
      signalled; and every target belongs to this ladder. */
  lemma LadderIsSafe(answers: seq<bool>, n: nat, pgid: Option<int>, lockPid: Option<int>, scoped: seq<int>)
    ensures var trace := LadderOf(answers, n, pgid, lockPid, scoped).Trace();
            && LockVerified(trace) && KillsAreLate(trace) && OnlyPositive(trace)
            && AimedAt(trace, Targets(pgid, lockPid, scoped))
  {
    var targets := Targets(pgid, ServerOf(answers, n, lockPid), scoped);
    var head := LadderHead(answers, n, lockPid);
    forall t | t in targets
      ensures t in Targets(pgid, lockPid, scoped) && (t.LockServer? ==> head == [Verified(t.pid, true)])
    {
      TargetsExact(pgid, ServerOf(answers, n, lockPid), scoped, t);
      TargetsExact(pgid, lockPid, scoped, t);
    }
    ClimbIsSafe(answers, n, head, targets);
  }

  lemma ClimbIsSafe(answers: seq<bool>, n: nat, head: seq<Event>, targets: seq<Target>)
    requires |head| <= 1 && (|head| == 1 ==> head[0].Verified?)
    requires forall t | t in targets && t.LockServer? :: head == [Verified(t.pid, true)]
    ensures var trace := LadderOn(answers, n, head, targets).Trace();
            LockVerified(trace) && KillsAreLate(trace) && OnlyPositive(trace) && AimedAt(trace, targets)
  {
    var ladder := LadderOn(answers, n, head, targets);
    TermShaped(answers, n + |head|, targets, |targets|);
    if ladder.Sleeps() {
      KillShaped(answers, n + |head| + |ladder.first| + 1, targets, |targets|);
      PartsAreSafe(head, ladder.first, ladder.second, targets);
    } else {
      ShortIsSafe(head, ladder.first, targets);
    }
  }

  lemma ShortIsSafe(head: seq<Event>, first: seq<Event>, targets: seq<Target>)
    requires TermShape(first, targets)
    requires |head| <= 1 && (|head| == 1 ==> head[0].Verified?)
    requires forall t | t in targets && t.LockServer? :: head == [Verified(t.pid, true)]
    ensures var trace := head + first;
            LockVerified(trace) && KillsAreLate(trace) && OnlyPositive(trace) && AimedAt(trace, targets)
  {
    var trace := head + first;
    assert forall k | 0 <= k < |head| :: trace[k] == head[k];
    forall i | 0 <= i < |trace| && trace[i].Sent?
      ensures trace[i].sig.Term? && Number(trace[i].target) > 0 && trace[i].target in targets
      ensures trace[i].target.LockServer? ==> VerifiedBefore(trace, i)
    {
      TermPart(head, first, [], targets, i);
      assert trace == head + first + [];
    }
  }

  /** What the process-tree entry adds: no group but the child's own is ever signalled, and
      that one only when the child leads it. */
  lemma OnlyTheLedGroup(answers: seq<bool>, n: nat, leader: int, ownGroup: Option<int>, lockPid: Option<int>,
          scoped: seq<int>)
    ensures var trace := LadderOf(answers, n, LedGroup(leader, ownGroup), lockPid, scoped).Trace();
            forall i | 0 <= i < |trace| && trace[i].Sent? && trace[i].target.Group? ::
              trace[i].target.id == leader && ownGroup == Some(leader)
  {
    LadderIsSafe(answers, n, LedGroup(leader, ownGroup), lockPid, scoped);
    var trace := LadderOf(answers, n, LedGroup(leader, ownGroup), lockPid, scoped).Trace();
    forall i | 0 <= i < |trace| && trace[i].Sent? && trace[i].target.Group?
      ensures trace[i].target.id == leader && ownGroup == Some(leader)
    {
      TargetsExact(LedGroup(leader, ownGroup), lockPid, scoped, trace[i].target);
    }
  }

  // -------------------------------------------------------------- the ladder misses nobody

  /** The target was sent the signal; or, before a SIGKILL, it was found gone since the
      sleep, or it is the lock process and no longer known to be this build's. */
  predicate Covers(e: Event, t: Target, sig: Sig) {
    || (e.Sent? && e.target == t && e.sig == sig)
    || (sig.Kill? && (e == Checked(t, false) || (t.LockServer? && e == Verified(t.pid, false))))
  }

  ghost predicate Covered(events: seq<Event>, t: Target, sig: Sig) {
    exists i | 0 <= i < |events| :: Covers(events[i], t, sig)
  }

  lemma CoveredMore(front: seq<Event>, block: seq<Event>, t: Target, sig: Sig)
    requires Covered(front, t, sig) || Covered(block, t, sig)
    ensures Covered(front + block, t, sig)
  {
    var events := front + block;
    if Covered(front, t, sig) {
      var i :| 0 <= i < |front| && Covers(front[i], t, sig);
      assert events[i] == front[i];
    } else {
      var i :| 0 <= i < |block| && Covers(block[i], t, sig);
      assert events[|front| + i] == block[i];
    }
  }

  lemma BlockCovers(sig: Sig, answers: seq<bool>, n: nat, t: Target)
    requires Number(t) > 0
    ensures Covered(BlockOf(sig, answers, n, t), t, sig)
  {
    var block := BlockOf(sig, answers, n, t);
    assert Covers(block[|block| - 1], t, sig);
  }

  lemma {:induction false} RungCovers(sig: Sig, answers: seq<bool>, n: nat, targets: seq<Target>, k: nat, j: nat)
    requires j < k <= |targets| && Number(targets[j]) > 0
    ensures Covered(Rung(sig, answers, n, targets, k), targets[j], sig)
  {
    var front := Rung(sig, answers, n, targets, k - 1);
    if j < k - 1 {
      RungCovers(sig, answers, n, targets, k - 1, j);
    } else {
      BlockCovers(sig, answers, n + |front|, targets[j]);
    }
    CoveredMore(front, BlockOf(sig, answers, n + |front|, targets[k - 1]), targets[j], sig);
  }

  lemma WholeRungCovers(sig: Sig, answers: seq<bool>, n: nat, targets: seq<Target>, t: Target)
    requires t in targets && Number(t) > 0
    ensures Covered(Rung(sig, answers, n, targets, |targets|), t, sig)
  {
    var j :| 0 <= j < |targets| && targets[j] == t;
    RungCovers(sig, answers, n, targets, |targets|, j);
  }

  /** Every target with a positive number is sent SIGTERM; and if that delivered anything,
      every one is later sent SIGKILL, or was found gone, or is the lock process and could
      not be verified again. */
  lemma EveryoneIsSignalled(answers: seq<bool>, n: nat, pgid: Option<int>, lockPid: Option<int>, scoped: seq<int>,
          t: Target)
    requires t in Targets(pgid, ServerOf(answers, n, lockPid), scoped) && Number(t) > 0
    ensures var ladder := LadderOf(answers, n, pgid, lockPid, scoped);
            && Covered(ladder.first, t, Term)
            && (ladder.Sleeps() ==> Covered(ladder.second, t, Kill))
  {
    var head, targets := LadderHead(answers, n, lockPid), Targets(pgid, ServerOf(answers, n, lockPid), scoped);
    FirstCovers(answers, n, head, targets, t);
    if LadderOn(answers, n, head, targets).Sleeps() {
      SecondCovers(answers, n, head, targets, t);
    }
  }

  lemma FirstCovers(answers: seq<bool>, n: nat, head: seq<Event>, targets: seq<Target>, t: Target)
    requires t in targets && Number(t) > 0
    ensures Covered(LadderOn(answers, n, head, targets).first, t, Term)
  {
    WholeRungCovers(Term, answers, n + |head|, targets, t);
  }

  lemma SecondCovers(answers: seq<bool>, n: nat, head: seq<Event>, targets: seq<Target>, t: Target)
    requires t in targets && Number(t) > 0 && LadderOn(answers, n, head, targets).Sleeps()
    ensures Covered(LadderOn(answers, n, head, targets).second, t, Kill)
  {
    var first := LadderOn(answers, n, head, targets).first;
    WholeRungCovers(Kill, answers, n + |head| + |first| + 1, targets, t);
  }

  // ------------------------------------------------------- the lock process as a number

  /** Every signal that reaches the process numbered `pid`, through whichever layer (a group
      of that number holds its leader), comes after it was verified, with no sleep between. */
  ghost predicate NumberVerified(trace: seq<Event>, pid: int) {
    forall i | 0 <= i < |trace| && trace[i].Sent? && Number(trace[i].target) == pid :: VerifiedBefore(trace, i)
  }

  /** The verification guards the second layer only. The number in the lock file is safe
      from an unverified signal, whatever the answers, exactly when it is neither the group
      of the first layer nor found by the search of the third: neither of those verifies. */
  lemma LockNumberVerifiedExact(n: nat, pgid: Option<int>, pid: int, scoped: seq<int>)
    requires pid > 0
    ensures (forall answers :: NumberVerified(LadderOf(answers, n, pgid, Some(pid), scoped).Trace(), pid)) <==>
              pid !in scoped && pgid != Some(pid)
  {
    if pid in scoped {
      UnverifiedThroughLayer(n, pgid, pid, scoped, Scoped(pid));
    } else if pgid == Some(pid) {
      UnverifiedThroughLayer(n, pgid, pid, scoped, Group(pid));
    } else {
      forall answers ensures NumberVerified(LadderOf(answers, n, pgid, Some(pid), scoped).Trace(), pid) {
        LadderIsSafe(answers, n, pgid, Some(pid), scoped);
        var trace := LadderOf(answers, n, pgid, Some(pid), scoped).Trace();
        forall i | 0 <= i < |trace| && trace[i].Sent? && Number(trace[i].target) == pid
          ensures VerifiedBefore(trace, i)
        {
          TargetsExact(pgid, Some(pid), scoped, trace[i].target);
        }
      }
    }
  }

  lemma UnverifiedThroughLayer(n: nat, pgid: Option<int>, pid: int, scoped: seq<int>, t: Target)
    requires pid > 0 && t in {Scoped(pid), Group(pid)}
    requires if t.Group? then pgid == Some(pid) else pid in scoped
    ensures !NumberVerified(LadderOf([], n, pgid, Some(pid), scoped).Trace(), pid)
  {
    TargetsExact(pgid, None, scoped, t);
    UnverifiedClimb(n, pid, Targets(pgid, None, scoped), t);
  }

  lemma UnverifiedClimb(n: nat, pid: int, targets: seq<Target>, t: Target)
    requires pid > 0 && t in targets && Number(t) == pid
    ensures !NumberVerified(LadderOn([], n, [Verified(pid, false)], targets).Trace(), pid)
  {
    var head := [Verified(pid, false)];
    var ladder := LadderOn([], n, head, targets);
    WholeRungCovers(Term, [], n + 1, targets, t);
    TermShaped([], n + 1, targets, |targets|);
    var i :| 0 <= i < |ladder.first| && Covers(ladder.first[i], t, Term);
    var trace := ladder.Trace();
    assert trace[i + 1] == ladder.first[i];
    assert forall j | 0 < j <= |ladder.first| :: trace[j] == ladder.first[j - 1];
  }
}
