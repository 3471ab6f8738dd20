/** Stopping one run (`build_stop.py`): who may be signalled, when stale lock files may be
    removed, and what may be claimed, against any answers of the probes. */
module StopRun {
  import opened Base
  import opened GracefulWait

  // ----------------------------------------------------------------- the ownership guard

  datatype Refusal = PeerHeld(host: string) | Unattributable | SharedInaction

  /** What one look at the build directory shows: the marker's owner if it names one,
      whether the file system is shared if that could be told, and whether the lock is there. */
  datatype GuardView = GuardView(owner: Option<string>, shared: Option<bool>, lockThere: bool)

  /** The guard fails closed: it passes exactly for a marker naming this node, or with no
      owner on a file system known to be local. An absent lock never makes it pass. */
  function LockMutationGuard(me: string, v: GuardView): (refusal: Option<Refusal>)
    ensures refusal.None? <==> v.owner == Some(me) || (v.owner.None? && v.shared == Some(false))
    ensures refusal.Some? && refusal.value.PeerHeld? ==> v.owner == Some(refusal.value.host) && refusal.value.host != me
    ensures refusal.Some? && !refusal.value.PeerHeld? ==>
              v.owner.None? && (refusal.value.Unattributable? <==> v.lockThere)
  {
    if v.owner.Some? then (if v.owner.value != me then Some(PeerHeld(v.owner.value)) else None)
    else if v.shared == Some(false) then None
    else if v.lockThere then Some(Unattributable)
    else Some(SharedInaction)
  }

  /** Without a configuration the guard is skipped. */
  predicate Allowed(me: Option<string>, v: GuardView) {
    me.None? || LockMutationGuard(me.value, v).None?
  }

  // ------------------------------------------------------------------ files and the trace

  datatype File = PidFile | MetaFile | StopRequest | LockFile | SockFile | HashSock

  const STALE: seq<File> := [LockFile, SockFile, HashSock]
  const LAUNCH: set<File> := {PidFile, MetaFile}

  predicate IsStale(f: File) {
    f.LockFile? || f.SockFile? || f.HashSock?
  }

  datatype Signal = GroupInt(verified: bool) | ServerInt | Ladder | ContainerInt | ContainerPidInt | ContainerLadder

  datatype Step =
    | GuardAsked(ok: bool)
    | HoldersAsked(none: bool)
    | Reported(gone: bool)
    | Sent(signal: Signal)
    | Unlinked(file: File)

  /** The answers given while stale files are cleaned, and which files can be unlinked. */
  datatype CleanupView = CleanupView(guard: GuardView, holders: set<int>, unlinkable: set<File>)

  /** The answers given while the stop is verified. */
  datatype VerifyView = VerifyView(
    guard: GuardView, cookers: set<int>, groupAlive: bool, serverAlive: bool, container: Answer)

  datatype Remains =
    | CookerRuns
    | GroupRuns
    | ServerRuns
    | ContainerRuns
    | FileThere(file: File)
    | CommandFailed
    | Unconfirmed

  class Workspace {
    var files: set<File>
    var trace: seq<Step>

    constructor (files: set<File>)
      ensures this.files == files && trace == []
    {
      this.files := files;
      trace := [];
    }

    method Note(step: Step)
      modifies this`trace
      ensures trace == old(trace) + [step]
    {
      trace := trace + [step];
    }

    method RemoveRecord()
      modifies this`files
      ensures files == old(files) - LAUNCH
    {
      files := files - {PidFile};
      files := files - {MetaFile};
    }

    /** Marks the run as stopped by the user. A write that fails changes nothing and is
        ignored. */
    method RequestStop(writable: bool)
      modifies this`files
      ensures files == Requested(old(files), writable)
    {
      if writable {
        files := files + {StopRequest};
      }
    }

    /** The ownership guard, asked when there is a configuration to ask about. */
    method AskGuard(me: Option<string>, view: GuardView) returns (ok: bool)
      modifies this`trace
      ensures ok == Allowed(me, view)
      ensures trace == old(trace) + if me.Some? then [GuardAsked(ok)] else []
    {
      if me.None? {
        return true;
      }
      ok := LockMutationGuard(me.value, view).None?;
      Note(GuardAsked(ok));
    }

    /** Unlinks what is stale and can be unlinked; the rest is skipped. */
    method CleanStaleFiles(unlinkable: set<File>) returns (removed: seq<File>)
      modifies this
      ensures files == old(files) - set f | f in old(files) && f in unlinkable && IsStale(f)
      ensures forall f :: f in removed <==> f in old(files) && f !in files
      ensures trace == old(trace) + Unlinks(removed)
    {
      removed := [];
      for i := 0 to 3
        invariant files == old(files) - set f | f in STALE[..i] && f in old(files) && f in unlinkable
        invariant forall f :: f in removed <==> f in old(files) && f !in files
        invariant trace == old(trace) + Unlinks(removed)
      {
        var name := STALE[i];
        if name in files && name in unlinkable {
          files := files - {name};
          Note(Unlinked(name));
          removed := removed + [name];
        }
      }
      assert STALE[0] == LockFile && STALE[1] == SockFile && STALE[2] == HashSock;
      assert forall f :: f in STALE <==> IsStale(f);
    }

    /** The cleanup: nothing is touched unless the guard passes and nothing holds the lock. */
    method ReportStaleCleanup(me: Option<string>, view: CleanupView) returns (removed: seq<File>)
      modifies this
      ensures files == Cleaned(me, view, old(files))
      ensures removed != [] ==> Allowed(me, view.guard) && view.holders == {}
      ensures trace == old(trace) + CleanupSteps(me, view) + Unlinks(removed)
    {
      removed := [];
      var ok := AskGuard(me, view.guard);
      if !ok {
        return;
      }
      Note(HoldersAsked(view.holders == {}));
      if view.holders != {} {
        return;
      }
      removed := CleanStaleFiles(view.unlinkable);
    }

    /** What still runs or remains. A refused guard leaves files and the lock's process out:
        neither is this node's to judge. */
    method VerifyClean(me: Option<string>, pgid: Option<int>, targeted: bool, view: VerifyView)
      returns (reasons: seq<Remains>)
      modifies this`trace
      ensures reasons == [] <==>
              && view.cookers == {}
              && !(pgid.Some? && pgid.value > 0 && view.groupAlive)
              && (Allowed(me, view.guard) ==> !view.serverAlive && forall f | f in files :: !IsStale(f))
              && (targeted ==> view.container.Dead?)
      ensures CookerRuns in reasons <==> view.cookers != {}
      ensures GroupRuns in reasons <==> pgid.Some? && pgid.value > 0 && view.groupAlive
      ensures ServerRuns in reasons <==> Allowed(me, view.guard) && view.serverAlive
      ensures ContainerRuns in reasons <==> targeted && !view.container.Dead?
      ensures forall f :: FileThere(f) in reasons <==> Allowed(me, view.guard) && IsStale(f) && f in files
      ensures trace == old(trace) + VerifySteps(me, targeted, view)
    {
      reasons := [];
      var ok := AskGuard(me, view.guard);
      if view.cookers != {} {
        reasons := reasons + [CookerRuns];
      }
      if pgid.Some? && pgid.value > 0 && view.groupAlive {
        reasons := reasons + [GroupRuns];
      }
      if ok && view.serverAlive {
        reasons := reasons + [ServerRuns];
      }
      if targeted {
        Note(Reported(view.container.Dead?));
        if !view.container.Dead? {
          reasons := reasons + [ContainerRuns];
        }
      }
      if ok {
        ghost var before := reasons;
        assert STALE[0] == LockFile && STALE[1] == SockFile && STALE[2] == HashSock;
        for i := 0 to 3
          invariant reasons == [] <==> before == [] && forall j | 0 <= j < i :: STALE[j] !in files
          invariant forall x ::
              x in reasons <==> x in before || (x.FileThere? && x.file in STALE[..i] && x.file in files)
          invariant trace == old(trace) + VerifySteps(me, targeted, view)
        {
          if STALE[i] in files {
            reasons := reasons + [FileThere(STALE[i])];
          }
        }
        assert forall f :: f in STALE <==> IsStale(f);
      }
    }
  }

  function VerifySteps(me: Option<string>, targeted: bool, view: VerifyView): seq<Step> {
    (if me.Some? then [GuardAsked(Allowed(me, view.guard))] else []) +
    if targeted then [Reported(view.container.Dead?)] else []
  }

  /** What a cleanup leaves: everything, unless the guard passes and nothing holds the lock;
      then all but the stale files that can be unlinked. */
  function Cleaned(me: Option<string>, view: CleanupView, files: set<File>): set<File> {
    if Allowed(me, view.guard) && view.holders == {}
    then files - (set f | f in files && f in view.unlinkable && IsStale(f))
    else files
  }

  function Unlinks(removed: seq<File>): seq<Step> {
    seq(|removed|, i requires 0 <= i < |removed| => Unlinked(removed[i]))
  }

  function CleanupSteps(me: Option<string>, view: CleanupView): seq<Step> {
    (if me.Some? then [GuardAsked(Allowed(me, view.guard))] else []) +
    if Allowed(me, view.guard) then [HoldersAsked(view.holders == {})] else []
  }

  // --------------------------------------------------------------- stopping one container

  datatype ContainerStatus = WasDrained | WasEscalated | WasForced | WasLost | Incomplete | Unfinished

  /** The container reported gone, as the last thing that happened. */
  ghost predicate LastReportedGone(trace: seq<Step>) {
    trace != [] && trace[|trace| - 1] == Reported(true)
  }

  /** How one container is stopped: what the environment answers while it is. `execOk` says
      whether the interrupt reached bitbake inside; otherwise the container gets one. */
  datatype ContainerView = ContainerView(
    execOk: bool, wait: Config, rounds: seq<Round>, gone: Option<bool>, ladderFails: bool)

  function Repeat(signal: Signal, n: nat): seq<Step> {
    seq(n, _ => Sent(signal))
  }

  function Interrupts(view: ContainerView): seq<Step> {
    [Sent(ContainerInt)] + if view.execOk then [] else [Sent(ContainerPidInt)]
  }

  /** The report a stop ends with, if it asks for one. */
  function LastReport(status: ContainerStatus, view: ContainerView): seq<Step> {
    match status
    case WasDrained => [Reported(true)]
    case WasLost => []
    case Unfinished => []
    case _ => [Reported(view.gone == Some(true))]
  }

  /** Stops one container. Everything it does is in the trace: interrupts and the wait's
      escalations, or the ladder at once, then the report. It claims a stop only when the
      container was reported gone. */
  method StopContainer(ws: Workspace, force: bool, view: ContainerView)
    returns (status: ContainerStatus, failures: seq<Remains>, ghost ladders: nat)
    modifies ws`trace
    ensures ws.trace == old(ws.trace) + (if force then [] else Interrupts(view)) + Repeat(ContainerLadder, ladders) +
                        LastReport(status, view)
    ensures if force then ladders == 1 else ladders <= 2
    ensures ladders > 0 <==> status.WasEscalated? || status.WasForced? || status.Incomplete?
    ensures status.WasForced? ==> force
    ensures status.WasDrained? || status.WasEscalated? || status.WasLost? || status.Unfinished? ==> !force
    ensures ladders > 0 ==> (status.Incomplete? <==> view.gone != Some(true))
    ensures failures == if !status.Incomplete? then []
                        else if view.ladderFails then [CommandFailed]
                        else if view.gone == None then [Unconfirmed] else [ContainerRuns]
  {
    failures, ladders := [], 0;
    if !force {
      ws.Note(Sent(ContainerInt));
      if !view.execOk {
        ws.Note(Sent(ContainerPidInt));
      }
      assert ws.trace == old(ws.trace) + Interrupts(view);
      var outcome, used, escalations, views := Wait(view.wait, view.rounds);
      for i := 0 to escalations
        invariant ladders == i && ws.trace == old(ws.trace) + Interrupts(view) + Repeat(ContainerLadder, ladders)
      {
        RepeatMore(ws.trace, old(ws.trace) + Interrupts(view), ContainerLadder, ladders);
        ws.Note(Sent(ContainerLadder));
        ladders := ladders + 1;
      }
      match outcome
      case LostRuntime => return WasLost, [], ladders;
      case StillWaiting => return Unfinished, [], ladders;
      case Drained =>
        ws.Note(Reported(true));
        return WasDrained, [], ladders;
      case Escalated => status := WasEscalated;
    } else {
      RepeatMore(ws.trace, ws.trace, ContainerLadder, 0);
      ws.Note(Sent(ContainerLadder));
      ladders := 1;
      status := WasForced;
    }
    ws.Note(Reported(view.gone == Some(true)));
    if view.gone != Some(true) {
      status := Incomplete;
      failures := [if view.ladderFails then CommandFailed
                   else if view.gone == None then Unconfirmed
                   else ContainerRuns];
    }
  }

  lemma RepeatMore(now: seq<Step>, start: seq<Step>, signal: Signal, n: nat)
    requires now == start + Repeat(signal, n)
    ensures now + [Sent(signal)] == start + Repeat(signal, n + 1)
  {
    assert Repeat(signal, n + 1) == Repeat(signal, n) + [Sent(signal)];
  }

  // ---------------------------------------------------------------------- the whole stop

  datatype Result = Returned(ok: bool) | Raised | StillGoing

  /** The questions a cleanup asks before it removes anything. */
  function Asked(me: Option<string>): nat {
    if me.Some? then 2 else 1
  }

  /** A removal of a stale file is justified: right before it and other removals nothing was
      found to hold the lock, the guard had just passed, and, for a container, the last
      report said gone and no signal followed. */
  ghost predicate Justified(me: Option<string>, targeted: bool, trace: seq<Step>, from: nat, i: nat)
    requires from <= i < |trace|
  {
    exists h | from <= h < i :: JustifiedBy(me, targeted, trace, from, i, h)
  }

  ghost predicate JustifiedBy(me: Option<string>, targeted: bool, trace: seq<Step>, from: nat, i: nat, h: nat)
    requires from <= h < i < |trace|
  {
    && trace[h] == HoldersAsked(true)
    && (forall k | h < k <= i :: trace[k].Unlinked?)
    && (me.Some? ==> h > from && trace[h - 1] == GuardAsked(true))
    && (targeted ==> h - Asked(me) >= from && trace[h - Asked(me)] == Reported(true))
  }

  ghost predicate RemovalsJustified(me: Option<string>, targeted: bool, trace: seq<Step>, from: nat) {
    forall i | from <= i < |trace| && trace[i].Unlinked? :: Justified(me, targeted, trace, from, i)
  }

  lemma CleanupJustified(me: Option<string>, targeted: bool, before: seq<Step>, view: CleanupView, removed: seq<File>,
          now: seq<Step>, from: nat)
    requires from <= |before| && RemovalsJustified(me, targeted, before, from)
    requires targeted ==> from < |before| && LastReportedGone(before)
    requires removed != [] ==> Allowed(me, view.guard) && view.holders == {}
    requires now == before + CleanupSteps(me, view) + Unlinks(removed)
    ensures RemovalsJustified(me, targeted, now, from)
  {
    var steps := CleanupSteps(me, view);
    assert forall k | |before| <= k < |before| + |steps| :: now[k] == steps[k - |before|] && !now[k].Unlinked?;
    forall i | from <= i < |now| && now[i].Unlinked? ensures Justified(me, targeted, now, from, i) {
      if i < |before| {
        assert now[i] == before[i];
        JustifiedStays(me, targeted, before, now, from, i);
      } else {
        RemovalJustified(me, targeted, before, view, removed, now, from, i);
      }
    }
  }

  lemma JustifiedStays(me: Option<string>, targeted: bool, before: seq<Step>, now: seq<Step>, from: nat, i: nat)
    requires from <= i < |before| && before <= now && Justified(me, targeted, before, from, i)
    ensures Justified(me, targeted, now, from, i)
  {
    assert forall k | 0 <= k < |before| :: now[k] == before[k];
    var h :| from <= h < i && JustifiedBy(me, targeted, before, from, i, h);
    assert JustifiedBy(me, targeted, now, from, i, h);
  }

  lemma RemovalJustified(me: Option<string>, targeted: bool, before: seq<Step>, view: CleanupView, removed: seq<File>,
          now: seq<Step>, from: nat, i: nat)
    requires from <= |before| && (targeted ==> from < |before| && LastReportedGone(before))
    requires Allowed(me, view.guard) && view.holders == {}
    requires now == before + CleanupSteps(me, view) + Unlinks(removed)
    requires |before| + |CleanupSteps(me, view)| <= i < |now|
    ensures Justified(me, targeted, now, from, i)
  {
    var steps := CleanupSteps(me, view);
    var h := |before| + |steps| - 1;
    assert |steps| == Asked(me);
    assert now[h] == steps[|steps| - 1] == HoldersAsked(true);
    assert forall k | h < k <= i :: now[k] == Unlinks(removed)[k - h - 1];
    if me.Some? {
      assert now[h - 1] == steps[0];
    }
    if targeted {
      assert now[h - Asked(me)] == before[|before| - 1] == Reported(true);
    }
    assert JustifiedBy(me, targeted, now, from, i, h);
  }

  /** Steps that remove nothing keep every removal justified. */
  lemma QuietSteps(me: Option<string>, targeted: bool, before: seq<Step>, now: seq<Step>, from: nat)
    requires from <= |before| && before <= now && RemovalsJustified(me, targeted, before, from)
    requires forall i | |before| <= i < |now| :: !now[i].Unlinked?
    ensures RemovalsJustified(me, targeted, now, from)
  {
    forall i | from <= i < |now| && now[i].Unlinked? ensures Justified(me, targeted, now, from, i) {
      assert i < |before| && now[i] == before[i];
      JustifiedStays(me, targeted, before, now, from, i);
    }
  }

  lemma VerifyIsQuiet(me: Option<string>, targeted: bool, view: VerifyView)
    ensures forall s | s in VerifySteps(me, targeted, view) :: !s.Unlinked?
  {
  }

  /** The end of both kinds of stop: the cleanup, unless the target may still hold the lock,
      and the verification. Neither signals anything. */
  method CleanAndVerify(ws: Workspace, me: Option<string>, pgid: Option<int>, targeted: bool, clean: bool,
          cleanup: CleanupView, verify: VerifyView, ghost from: nat)
    returns (reasons: seq<Remains>)
    requires from <= |ws.trace| && RemovalsJustified(me, targeted, ws.trace, from)
    requires targeted && clean ==> from < |ws.trace| && LastReportedGone(ws.trace)
    modifies ws
    ensures old(ws.trace) <= ws.trace && RemovalsJustified(me, targeted, ws.trace, from)
    ensures forall i | |old(ws.trace)| <= i < |ws.trace| :: !ws.trace[i].Sent?
    ensures ws.files == if clean then Cleaned(me, cleanup, old(ws.files)) else old(ws.files)
    ensures reasons == [] <==>
            && verify.cookers == {}
            && !(pgid.Some? && pgid.value > 0 && verify.groupAlive)
            && (Allowed(me, verify.guard) ==> !verify.serverAlive && forall f | f in ws.files :: !IsStale(f))
            && (targeted ==> verify.container.Dead?)
  {
    ghost var before := ws.trace;
    if clean {
      var removed := ws.ReportStaleCleanup(me, cleanup);
      CleanupJustified(me, targeted, before, cleanup, removed, ws.trace, from);
    }
    ghost var middle := ws.trace;
    reasons := ws.VerifyClean(me, pgid, targeted, verify);
    VerifyIsQuiet(me, targeted, verify);
    QuietSteps(me, targeted, middle, ws.trace, from);
  }

  /** The answers a stop of a container run gets, in the order it asks. */
  datatype ContainerRun = ContainerRun(
    labelled: bool, installed: bool, status: Answer, ended: bool, writable: bool,
    stop: ContainerView, cleanup: CleanupView, verify: VerifyView)

  /** Files other than the launch record, the stale files and the stop request are left. */
  predicate OthersKept(before: set<File>, now: set<File>) {
    forall f | f !in LAUNCH && !IsStale(f) && f != StopRequest :: f in now <==> f in before
  }

  /** The stop request is there, if it was due and could be written. */
  function Requested(files: set<File>, written: bool): set<File> {
    if written then files + {StopRequest} else files
  }

  /** The trace of one container's stop, as far as the rest of the run needs it. */
  lemma StopTrace(before: seq<Step>, now: seq<Step>, force: bool, view: ContainerView, status: ContainerStatus,
          ladders: nat)
    requires now == before + (if force then [] else Interrupts(view)) + Repeat(ContainerLadder, ladders) +
                    LastReport(status, view)
    requires force ==> ladders == 1
    ensures before < now && (forall i | |before| <= i < |now| :: !now[i].Unlinked?)
    ensures now[|before|] == Sent(if force then ContainerLadder else ContainerInt)
    ensures status.WasDrained? || (view.gone == Some(true) && (status.WasEscalated? || status.WasForced?)) ==>
              LastReportedGone(now)
  {
  }

  /** The files once a stop has been requested, perhaps cleaned, and perhaps come to its end. */
  function FilesAfter(me: Option<string>, view: CleanupView, files: set<File>, written: bool, clean: bool,
          done: bool): set<File>
  {
    var cleaned := if clean then Cleaned(me, view, Requested(files, written)) else Requested(files, written);
    if done then cleaned - LAUNCH else cleaned
  }

  lemma FilesAfterExact(me: Option<string>, view: CleanupView, files: set<File>, written: bool, clean: bool, done: bool)
    ensures var after := FilesAfter(me, view, files, written, clean, done);
            && OthersKept(files, after) && after * LAUNCH == (if done then {} else files * LAUNCH)
            && (StopRequest in after <==> StopRequest in files || written)
  {
  }

  /** The stop of a container that is there: signals, cleanup, verification. */
  method StopLiveContainer(ws: Workspace, me: Option<string>, force: bool, run: ContainerRun)
    returns (result: Result, ghost clean: bool)
    modifies ws
    ensures old(ws.trace) < ws.trace && RemovalsJustified(me, true, ws.trace, |old(ws.trace)|)
    ensures ws.trace[|old(ws.trace)|] == Sent(if force then ContainerLadder else ContainerInt)
    ensures !result.Raised? && (result.StillGoing? ==> !force)
    ensures ws.files ==
              FilesAfter(me, run.cleanup, old(ws.files), !run.ended && run.writable, clean, result == Returned(true))
    ensures result == Returned(true) ==>
              && ws.files == Cleaned(me, run.cleanup, Requested(old(ws.files), !run.ended && run.writable)) - LAUNCH
              && run.verify.container.Dead? && run.verify.cookers == {}
              && (Allowed(me, run.verify.guard) ==>
                  !run.verify.serverAlive && forall f | f in ws.files :: !IsStale(f))
  {
    ghost var from, before := |ws.trace|, ws.trace;
    if !run.ended {
      ws.RequestStop(run.writable);
    }
    var status, failures, ladders := StopContainer(ws, force, run.stop);
    StopTrace(before, ws.trace, force, run.stop, status, ladders);
    QuietSteps(me, true, before, ws.trace, from);
    if status.Unfinished? {
      return StillGoing, false;
    }
    if status.WasLost? {
      return Returned(false), false;
    }
    clean := !status.Incomplete?;
    var reasons := CleanAndVerify(ws, me, None, true, !status.Incomplete?, run.cleanup, run.verify, from);
    if failures + reasons != [] {
      return Returned(false), clean;
    }
    ws.RemoveRecord();
    return Returned(true), clean;
  }

  /** A container run. With a recorded label and an installed runtime the launch record goes
      exactly when the stop succeeds; success means a container known to be gone, and every
      removal of a stale file was justified. */
  method StopContainerRun(ws: Workspace, me: Option<string>, force: bool, run: ContainerRun) returns (result: Result)
    modifies ws
    ensures old(ws.trace) <= ws.trace && RemovalsJustified(me, true, ws.trace, |old(ws.trace)|)
    ensures !result.Raised?
    ensures run.labelled && run.installed ==>
              ws.files * LAUNCH == if result == Returned(true) then {} else old(ws.files) * LAUNCH
    ensures !(run.labelled && run.installed) ==>
              result == Returned(false) && ws.files == old(ws.files) - LAUNCH && ws.trace == old(ws.trace)
    ensures run.status.Error? && run.labelled && run.installed ==>
              result == Returned(false) && ws.files == old(ws.files) && ws.trace == old(ws.trace)
    ensures run.status.Dead? && run.labelled && run.installed ==>
              result == Returned(true) && ws.files == Cleaned(me, run.cleanup, old(ws.files)) - LAUNCH
    ensures run.status.Alive? && run.labelled && run.installed ==>
              |old(ws.trace)| < |ws.trace| &&
              ws.trace[|old(ws.trace)|] == Sent(if force then ContainerLadder else ContainerInt)
    ensures run.status.Alive? && result == Returned(true) ==>
              ws.files == Cleaned(me, run.cleanup, Requested(old(ws.files), !run.ended && run.writable)) - LAUNCH
    ensures result == Returned(true) && run.status.Alive? ==>
              run.verify.container.Dead? && run.verify.cookers == {} &&
              (Allowed(me, run.verify.guard) ==> !run.verify.serverAlive && forall f | f in ws.files :: !IsStale(f))
    ensures result.StillGoing? ==> !force && run.status.Alive?
    ensures OthersKept(old(ws.files), ws.files)
    ensures StopRequest in ws.files <==>
              StopRequest in old(ws.files) ||
              (run.labelled && run.installed && run.status.Alive? && !run.ended && run.writable)
  {
    ghost var from := |ws.trace|;
    if !run.labelled || !run.installed {
      ws.RemoveRecord();
      return Returned(false);
    }
    if run.status.Error? {
      return Returned(false);
    }
    if run.status.Dead? {
      ws.Note(Reported(true));
      ghost var before := ws.trace;
      var removed := ws.ReportStaleCleanup(me, run.cleanup);
      CleanupJustified(me, true, before, run.cleanup, removed, ws.trace, from);
      ws.RemoveRecord();
      return Returned(true);
    }
    ghost var files, written := ws.files, !run.ended && run.writable;
    ghost var clean;
    result, clean := StopLiveContainer(ws, me, force, run);
    FilesAfterExact(me, run.cleanup, files, written, clean, result == Returned(true));
  }

  /** The answers a stop of a host run gets. `deliverable` says whether an interrupt sent to
      the recorded group is delivered; otherwise sending it raises. */
  datatype HostRun = HostRun(
    live: bool, pgid: Option<int>, cmdlineOk: bool, cookers: set<int>, serverAlive: bool,
    writable: bool, deliverable: bool, serverPid: Option<int>, serverVerified: bool,
    wait: Config, rounds: seq<Round>, cleanup: CleanupView, verify: VerifyView)
  {
    predicate WrapperLive() { live && cmdlineOk && pgid.Some? }
    predicate Idle() { !WrapperLive() && cookers == {} && !serverAlive }
    predicate HasGroup() { pgid.Some? && pgid.value > 0 }
  }

  ghost predicate SentSince(from: nat, trace: seq<Step>, signal: Signal) {
    exists i | from <= i < |trace| :: trace[i] == Sent(signal)
  }

  /** Steps that signal nothing change nothing about what was signalled. */
  lemma SentStays(from: nat, before: seq<Step>, now: seq<Step>)
    requires from <= |before| && before <= now && forall i | |before| <= i < |now| :: !now[i].Sent?
    ensures forall signal :: SentSince(from, before, signal) <==> SentSince(from, now, signal)
  {
    assert forall i | 0 <= i < |before| :: now[i] == before[i];
  }

  /** The interrupts of a host stop: the recorded group, whatever is known of it, and the
      server if it was verified. */
  function HostInterrupts(run: HostRun): seq<Step> {
    (if run.HasGroup() then [Sent(GroupInt(run.WrapperLive()))] else []) +
    if run.serverPid.Some? && run.serverVerified then [Sent(ServerInt)] else []
  }

  /** The signals of a host stop: the interrupts, then the wait with its escalations; or the
      ladder at once. */
  method SignalHost(ws: Workspace, force: bool, run: HostRun) returns (way: Result, ghost ladders: nat)
    modifies ws`trace
    ensures way.Raised? <==> !force && run.HasGroup() && !run.deliverable
    ensures force ==> way.Returned? && ladders == 1
    ensures way.Raised? ==> ladders == 0
    ensures ladders <= 2
    ensures ws.trace == old(ws.trace) + (if force || way.Raised? then [] else HostInterrupts(run)) +
                        Repeat(Ladder, ladders)
  {
    way, ladders := Returned(true), 0;
    if force {
      RepeatMore(ws.trace, ws.trace, Ladder, 0);
      ws.Note(Sent(Ladder));
      ladders := 1;
      return;
    }
    if run.HasGroup() {
      if !run.deliverable {
        return Raised, 0;
      }
      ws.Note(Sent(GroupInt(run.WrapperLive())));
    }
    if run.serverPid.Some? && run.serverVerified {
      ws.Note(Sent(ServerInt));
    }
    assert ws.trace == old(ws.trace) + HostInterrupts(run);
    var outcome, used, escalations, views := Wait(run.wait, run.rounds);
    for i := 0 to escalations
      invariant ladders == i && ws.trace == old(ws.trace) + HostInterrupts(run) + Repeat(Ladder, ladders)
    {
      RepeatMore(ws.trace, old(ws.trace) + HostInterrupts(run), Ladder, ladders);
      ws.Note(Sent(Ladder));
      ladders := ladders + 1;
    }
    if outcome.StillWaiting? {
      way := StillGoing;
    }
  }

  lemma HostTrace(before: seq<Step>, now: seq<Step>, middle: seq<Step>, ladders: nat, signal: Signal)
    requires now == before + middle + Repeat(Ladder, ladders)
    requires forall i | 0 <= i < |middle| :: middle[i].Sent?
    ensures before <= now && (forall i | |before| <= i < |now| :: !now[i].Unlinked?)
    ensures SentSince(|before|, now, signal) <==> Sent(signal) in middle || (signal.Ladder? && ladders > 0)
  {
    if i :| 0 <= i < |middle| && middle[i] == Sent(signal) {
      assert now[|before| + i] == Sent(signal);
    }
    if ladders > 0 {
      assert now[|before| + |middle|] == Sent(Ladder);
    }
  }

  /** Which signals a host stop has sent, from its trace. */
  lemma HostSignals(before: seq<Step>, now: seq<Step>, force: bool, raised: bool, run: HostRun, ladders: nat)
    requires now == before + (if force || raised then [] else HostInterrupts(run)) + Repeat(Ladder, ladders)
    ensures before <= now && (forall i | |before| <= i < |now| :: !now[i].Unlinked?)
    ensures forall verified :: SentSince(|before|, now, GroupInt(verified)) <==>
              !force && !raised && run.HasGroup() && verified == run.WrapperLive()
    ensures SentSince(|before|, now, ServerInt) <==>
              !force && !raised && run.serverPid.Some? && run.serverVerified
    ensures SentSince(|before|, now, Ladder) <==> ladders > 0
  {
    var middle := if force || raised then [] else HostInterrupts(run);
    HostTrace(before, now, middle, ladders, GroupInt(true));
    HostTrace(before, now, middle, ladders, GroupInt(false));
    HostTrace(before, now, middle, ladders, ServerInt);
    HostTrace(before, now, middle, ladders, Ladder);
  }

  /** A host stop with something left to stop: signals, cleanup, verification. */
  method StopBusyHost(ws: Workspace, me: Option<string>, force: bool, run: HostRun) returns (result: Result)
    modifies ws
    ensures old(ws.trace) <= ws.trace && RemovalsJustified(me, false, ws.trace, |old(ws.trace)|)
    ensures result.Raised? <==> !force && run.HasGroup() && !run.deliverable
    ensures forall verified :: SentSince(|old(ws.trace)|, ws.trace, GroupInt(verified)) <==>
              !force && run.HasGroup() && run.deliverable && verified == run.WrapperLive()
    ensures !result.Raised? ==>
              (SentSince(|old(ws.trace)|, ws.trace, ServerInt) <==>
                 !force && run.serverPid.Some? && run.serverVerified)
    ensures force ==> SentSince(|old(ws.trace)|, ws.trace, Ladder)
    ensures result == Returned(true) ==>
              run.verify.cookers == {} && !(run.HasGroup() && run.verify.groupAlive) &&
              (Allowed(me, run.verify.guard) ==> !run.verify.serverAlive && forall f | f in ws.files :: !IsStale(f))
    ensures ws.files == match result
                        case Returned(_) => Cleaned(me, run.cleanup, old(ws.files)) - LAUNCH
                        case Raised => old(ws.files) - LAUNCH
                        case StillGoing => old(ws.files)
  {
    ghost var from := |ws.trace|;
    ghost var before := ws.trace;
    var way, ladders := SignalHost(ws, force, run);
    HostSignals(before, ws.trace, force, way.Raised?, run, ladders);
    QuietSteps(me, false, before, ws.trace, from);
    if way.Raised? {
      ws.RemoveRecord();
      return Raised;
    }
    if way.StillGoing? {
      return StillGoing;
    }
    ghost var signalled := ws.trace;
    var reasons := CleanAndVerify(ws, me, run.pgid, false, true, run.cleanup, run.verify, from);
    SentStays(from, signalled, ws.trace);
    ws.RemoveRecord();
    return Returned(reasons == []);
  }

  /** A host run. The launch record goes on every way out. The interrupt to the recorded
      group is sent even when the wrapper was found dead or could not be identified, as long
      as a detached cooker or server remains: to a group that failed its identity check
      exactly when that signal can be delivered, and raising exactly when it cannot. */
  method StopHostRun(ws: Workspace, me: Option<string>, force: bool, run: HostRun) returns (result: Result)
    modifies ws
    ensures old(ws.trace) <= ws.trace && RemovalsJustified(me, false, ws.trace, |old(ws.trace)|)
    ensures result.Raised? <==> !run.Idle() && !force && run.HasGroup() && !run.deliverable
    ensures run.Idle() ==> result == Returned(true)
    ensures forall verified :: SentSince(|old(ws.trace)|, ws.trace, GroupInt(verified)) <==>
              !run.Idle() && !force && run.HasGroup() && run.deliverable && verified == run.WrapperLive()
    ensures !result.Raised? ==>
              (SentSince(|old(ws.trace)|, ws.trace, ServerInt) <==>
                 !run.Idle() && !force && run.serverPid.Some? && run.serverVerified)
    ensures force && !run.Idle() ==> SentSince(|old(ws.trace)|, ws.trace, Ladder)
    ensures run.Idle() ==> !SentSince(|old(ws.trace)|, ws.trace, Ladder)
    ensures result == Returned(true) && !run.Idle() ==>
              run.verify.cookers == {} && !(run.HasGroup() && run.verify.groupAlive) &&
              (Allowed(me, run.verify.guard) ==> !run.verify.serverAlive && forall f | f in ws.files :: !IsStale(f))
    ensures ws.files == var kept := Requested(old(ws.files), run.WrapperLive() && run.writable);
                        match result
                        case Returned(_) => Cleaned(me, run.cleanup, kept) - LAUNCH
                        case Raised => kept - LAUNCH
                        case StillGoing => kept
  {
    ghost var before := ws.trace;
    var wrapperLive := run.WrapperLive();
    if !wrapperLive && run.cookers == {} && !run.serverAlive {
      var removed := ws.ReportStaleCleanup(me, run.cleanup);
      CleanupJustified(me, false, before, run.cleanup, removed, ws.trace, |before|);
      SentStays(|before|, before, ws.trace);
      ws.RemoveRecord();
      return Returned(true);
    }
    if wrapperLive {
      ws.RequestStop(run.writable);
    }
    result := StopBusyHost(ws, me, force, run);
  }

  datatype Run = InContainer(container: ContainerRun) | OnHost(host: HostRun)

  /** `stop_run`. A refusal up front sends nothing, changes no file and claims nothing. */
  method StopTheRun(ws: Workspace, me: Option<string>, guard: GuardView, force: bool, run: Run) returns (result: Result)
    modifies ws
    ensures !Allowed(me, guard) ==>
              result == Returned(false) && ws.files == old(ws.files) && ws.trace == old(ws.trace) + [GuardAsked(false)]
    ensures old(ws.trace) <= ws.trace && RemovalsJustified(me, run.InContainer?, ws.trace, |old(ws.trace)|)
    ensures Allowed(me, guard) && run.InContainer? && run.container.labelled && run.container.installed ==>
              ws.files * LAUNCH == if result == Returned(true) then {} else old(ws.files) * LAUNCH
    ensures Allowed(me, guard) && run.InContainer? && result == Returned(true) ==>
              run.container.status.Dead? || (run.container.status.Alive? && run.container.verify.container.Dead?)
    ensures Allowed(me, guard) && run.OnHost? && !result.StillGoing? ==> ws.files * LAUNCH == {}
    ensures Allowed(me, guard) && run.OnHost? ==>
              (result.Raised? <==> !run.host.Idle() && !force && run.host.HasGroup() && !run.host.deliverable)
    ensures OthersKept(old(ws.files), ws.files)
  {
    ghost var before := ws.trace;
    var ok := ws.AskGuard(me, guard);
    if !ok {
      return Returned(false);
    }
    ghost var middle := ws.trace;
    match run
    case InContainer(c) =>
      result := StopContainerRun(ws, me, force, c);
      JustifiedEarlier(me, true, ws.trace, |before|, |middle|);
    case OnHost(h) =>
      result := StopHostRun(ws, me, force, h);
      JustifiedEarlier(me, false, ws.trace, |before|, |middle|);
  }

  lemma JustifiedEarlier(me: Option<string>, targeted: bool, trace: seq<Step>, from: nat, middle: nat)
    requires from <= middle <= |trace| && RemovalsJustified(me, targeted, trace, middle)
    requires forall i | from <= i < middle :: !trace[i].Unlinked?
    ensures RemovalsJustified(me, targeted, trace, from)
  {
    forall i | from <= i < |trace| && trace[i].Unlinked? ensures Justified(me, targeted, trace, from, i) {
      assert Justified(me, targeted, trace, middle, i);
      var h :| middle <= h < i && JustifiedBy(me, targeted, trace, middle, i, h);
      assert JustifiedBy(me, targeted, trace, from, i, h);
    }
  }
}
