/** The closed form of the event fold: what the artifact says about any event sequence,
    without running the fold. Events that raise are not part of the sequence. */
module EventForm {
  import opened Base
  import opened EventFold

  /** Index of the latest event satisfying `p`, or -1. */
  function LastIndex(es: seq<Event>, p: Event -> bool): (k: int)
    ensures -1 <= k < |es|
  {
    if es == [] then -1
    else if p(es[|es| - 1]) then |es| - 1
    else LastIndex(es[..|es| - 1], p)
  }

  lemma {:induction false} LastIndexExact(es: seq<Event>, p: Event -> bool, k: int)
    ensures LastIndex(es, p) == k <==>
            -1 <= k < |es| && (k >= 0 ==> p(es[k])) && forall j | k < j < |es| :: !p(es[j])
  {
    if es != [] {
      LastIndexExact(es[..|es| - 1], p, k);
    }
  }

  /** Index of the first event satisfying `p`, or -1. */
  function FirstIndex(es: seq<Event>, p: Event -> bool): (k: int)
    ensures -1 <= k < |es|
  {
    if es == [] then -1
    else
      var earlier := FirstIndex(es[..|es| - 1], p);
      if earlier >= 0 then earlier else if p(es[|es| - 1]) then |es| - 1 else -1
  }

  lemma {:induction false} FirstIndexExact(es: seq<Event>, p: Event -> bool, k: int)
    ensures FirstIndex(es, p) == k <==>
            -1 <= k < |es| && (k >= 0 ==> p(es[k])) && forall j | 0 <= j < (if k < 0 then |es| else k) :: !p(es[j])
  {
    if es != [] {
      FirstIndexExact(es[..|es| - 1], p, k);
      FirstIndexExact(es[..|es| - 1], p, -1);
    }
  }

  function Is(c: Class): Event -> bool { (e: Event) => e.cls == c }

  function Ends(key: Key): Event -> bool {
    (e: Event) => KeyOf(e) == key && (e.cls.TaskSucceeded? || e.cls.TaskFailed? || e.cls.TaskFailedSilent?)
  }

  function Starts(key: Key): Event -> bool { (e: Event) => KeyOf(e) == key && e.cls.TaskStarted? }

  function Classifies(key: Key): Event -> bool {
    (e: Event) => KeyOf(e) == key && e.cls.MetadataEvent? && NamesTask(e)
  }

  function Names(key: Key): Event -> bool { (e: Event) => KeyOf(e) == key && NamesTask(e) }

  function FailsWithLog(key: Key): Event -> bool {
    (e: Event) => KeyOf(e) == key && (e.cls.TaskFailed? || e.cls.TaskFailedSilent?) && Get(e, Logfile) != Null
  }

  function StartsWithLog(key: Key): Event -> bool {
    (e: Event) => KeyOf(e) == key && e.cls.TaskStarted? && Get(e, Logfile) != Null
  }

  function SetsceneUsable(): Event -> bool { (e: Event) => UsableSetscene(e) }

  function Totalled(): Event -> bool { (e: Event) => HasTotal(e) }

  function OutcomeOf(c: Class): TaskOutcome {
    if c.TaskSucceeded? then Succeeded else if c.TaskFailed? then Failed else FailedSilent
  }

  // ------------------------------------------------------------------------- the build

  /** The outcome is settled at the first BuildCompleted by whether a TaskFailed came
      before it; until one comes, any TaskFailed makes it failed. */
  function OutcomeForm(es: seq<Event>): BuildOutcome {
    var done, failed := FirstIndex(es, Is(BuildCompleted)), FirstIndex(es, Is(TaskFailed));
    if done < 0 then (if failed < 0 then Unknown else BuildFailed)
    else if 0 <= failed < done then BuildFailed
    else Success
  }

  ghost predicate BuildMatches(s: State, es: seq<Event>) {
    && s.sawFailure == (FirstIndex(es, Is(TaskFailed)) >= 0)
    && (s.build.outcome == Unknown <==> FirstIndex(es, Is(BuildCompleted)) < 0)
    && ReportedOutcome(s) == OutcomeForm(es)
    && s.build.started == TimeAt(es, LastIndex(es, Is(BuildStarted)))
    && s.build.completed == TimeAt(es, LastIndex(es, Is(BuildCompleted)))
  }

  function TimeAt(es: seq<Event>, k: int): Value
    requires k < |es|
  {
    if k < 0 then Null else Time(es[k])
  }

  /** What one event does to the build's outcome and times. */
  lemma BuildStep(s: State, e: Event)
    ensures var t := Consumed(s, e);
            && t.sawFailure == (s.sawFailure || e.cls == TaskFailed)
            && t.build.started == (if e.cls == BuildStarted then Time(e) else s.build.started)
            && t.build.completed == (if e.cls == BuildCompleted then Time(e) else s.build.completed)
            && t.build.outcome == (if e.cls == BuildCompleted && s.build.outcome == Unknown
                                   then (if s.sawFailure then BuildFailed else Success)
                                   else s.build.outcome)
  {
  }

  lemma BuildMatchesStep(s: State, t: State, es: seq<Event>)
    requires es != [] && BuildMatches(s, es[..|es| - 1])
    requires var e := es[|es| - 1];
             && t.sawFailure == (s.sawFailure || e.cls == TaskFailed)
             && t.build.started == (if e.cls == BuildStarted then Time(e) else s.build.started)
             && t.build.completed == (if e.cls == BuildCompleted then Time(e) else s.build.completed)
             && t.build.outcome == (if e.cls == BuildCompleted && s.build.outcome == Unknown
                                    then (if s.sawFailure then BuildFailed else Success)
                                    else s.build.outcome)
    ensures BuildMatches(t, es)
  {
  }

  lemma {:induction false} BuildForm(es: seq<Event>)
    ensures BuildMatches(FoldEvents(es), es)
  {
    if es != [] {
      var s, e := FoldEvents(es[..|es| - 1]), es[|es| - 1];
      BuildForm(es[..|es| - 1]);
      BuildStep(s, e);
      BuildMatchesStep(s, Consumed(s, e), es);
    }
  }

  /** Setscene is read once, from the first usable statistics; the queue's totals are
      always the latest. */
  ghost predicate CountersMatch(s: State, es: seq<Event>) {
    var first, last := FirstIndex(es, SetsceneUsable()), LastIndex(es, Totalled());
    && s.setsceneSeen == (first >= 0)
    && s.setscene == (if first < 0 then EMPTY.setscene else SetsceneOf(es[first]))
    && Totals(s.build) == (if last < 0 then (Null, Null, Null) else TotalsOf(es[last]))
  }

  function Totals(b: Build): (Value, Value, Value) {
    (b.tasksTotal, b.tasksCompleted, b.tasksActive)
  }

  function TotalsOf(e: Event): (Value, Value, Value) {
    var stats := Get(e, Stats);
    (Stat(stats, StatTotal), OrZero(Stat(stats, StatCompleted)), OrZero(Stat(stats, StatActive)))
  }

  lemma CountersStep(s: State, e: Event)
    ensures var t := Consumed(s, e);
            && t.setsceneSeen == (s.setsceneSeen || UsableSetscene(e))
            && t.setscene == (if !s.setsceneSeen && UsableSetscene(e) then SetsceneOf(e) else s.setscene)
            && Totals(t.build) == (if HasTotal(e) then TotalsOf(e) else Totals(s.build))
  {
  }

  lemma CountersMatchStep(s: State, t: State, es: seq<Event>)
    requires es != [] && CountersMatch(s, es[..|es| - 1])
    requires var e := es[|es| - 1];
             && t.setsceneSeen == (s.setsceneSeen || UsableSetscene(e))
             && t.setscene == (if !s.setsceneSeen && UsableSetscene(e) then SetsceneOf(e) else s.setscene)
             && Totals(t.build) == (if HasTotal(e) then TotalsOf(e) else Totals(s.build))
    ensures CountersMatch(t, es)
  {
  }

  lemma {:induction false} CountersForm(es: seq<Event>)
    ensures CountersMatch(FoldEvents(es), es)
  {
    if es != [] {
      var s, e := FoldEvents(es[..|es| - 1]), es[|es| - 1];
      CountersForm(es[..|es| - 1]);
      CountersStep(s, e);
      CountersMatchStep(s, Consumed(s, e), es);
    }
  }

  /** What `part` takes from each event, in event order. */
  function Collected<T>(es: seq<Event>, part: Event -> seq<T>): seq<T> {
    if es == [] then [] else part(es[0]) + Collected(es[1..], part)
  }

  lemma {:induction false} CollectedSnoc<T>(es: seq<Event>, e: Event, part: Event -> seq<T>)
    ensures Collected(es + [e], part) == Collected(es, part) + part(e)
  {
    if es == [] {
      assert es + [e] == [e] && [e][1..] == [];
      assert Collected([e], part) == part(e) + [];
    } else {
      assert (es + [e])[1..] == es[1..] + [e];
      CollectedSnoc(es[1..], e, part);
    }
  }

  function FailedPart(): Event -> seq<Failure> {
    (e: Event) => if e.cls.TaskFailed? then [FailureOf(e)] else []
  }

  function PsiPart(): Event -> seq<Psi> { (e: Event) => PsiOf(e) }

  function DiskPart(): Event -> seq<DiskSample> { (e: Event) => DiskOf(e) }

  function FullPart(): Event -> seq<FullDisk> { (e: Event) => FullOf(e) }

  lemma ListsStep(s: State, e: Event)
    ensures var t := Consumed(s, e);
            && t.failures == s.failures + FailedPart()(e) && t.psi == s.psi + PsiPart()(e)
            && t.disk == s.disk + DiskPart()(e) && t.full == s.full + FullPart()(e)
  {
  }

  /** The failures are exactly the TaskFailed events in order, and the pressure and disk
      samples exactly those of their own events. */
  lemma {:induction false} ListsForm(es: seq<Event>)
    ensures var s := FoldEvents(es);
            && s.failures == Collected(es, FailedPart()) && s.psi == Collected(es, PsiPart())
            && s.disk == Collected(es, DiskPart()) && s.full == Collected(es, FullPart())
  {
    if es != [] {
      var front, e := es[..|es| - 1], es[|es| - 1];
      ListsForm(front);
      ListsStep(FoldEvents(front), e);
      assert es == front + [e];
      CollectedSnoc(front, e, FailedPart());
      CollectedSnoc(front, e, PsiPart());
      CollectedSnoc(front, e, DiskPart());
      CollectedSnoc(front, e, FullPart());
    }
  }

  // ------------------------------------------------------------------------- task rows

  /** Outcome and completion time: those of the latest terminal event. */
  function EndForm(es: seq<Event>, key: Key): (TaskOutcome, Value) {
    var end := LastIndex(es, Ends(key));
    if end < 0 then (Pending, Null) else (OutcomeOf(es[end].cls), Time(es[end]))
  }

  /** Start time and process: those of the latest TaskStarted. */
  function StartForm(es: seq<Event>, key: Key): (Value, Value) {
    var start := LastIndex(es, Starts(key));
    if start < 0 then (Null, Null) else (Time(es[start]), Get(es[start], Pid))
  }

  /** Log file: the latest a failure named, else the first a start named. */
  function LogForm(es: seq<Event>, key: Key): Value {
    var failed, started := LastIndex(es, FailsWithLog(key)), FirstIndex(es, StartsWithLog(key));
    if failed >= 0 then Get(es[failed], Logfile) else if started >= 0 then Get(es[started], Logfile) else Null
  }

  function BackendForm(es: seq<Event>, key: Key): Value {
    var back := LastIndex(es, Classifies(key));
    if back < 0 then Null else Get(es[back], LocalData)
  }

  /** What the row of `key` holds, read off the event sequence. */
  function RowForm(es: seq<Event>, key: Key): Row {
    var ((outcome, completed), (started, pid)) := (EndForm(es, key), StartForm(es, key));
    Row(key.0, key.1, outcome, started, completed, pid, LogForm(es, key), BackendForm(es, key))
  }

  ghost predicate RowMatches(s: State, es: seq<Event>, key: Key) {
    if key in s.rows then LastIndex(es, Names(key)) >= 0 && s.rows[key] == RowForm(es, key)
    else LastIndex(es, Names(key)) < 0 && RowForm(es, key) == BlankRow(key)
  }

  /** What one event does to the row of `key`. */
  function Updated(row: Row, key: Key, e: Event): Row {
    if NamesTask(e) && KeyOf(e) == key then RowAfter(row, e) else row
  }

  lemma RowStep(s: State, e: Event, key: Key)
    ensures var t := Consumed(s, e);
            && (key in t.rows <==> key in s.rows || (NamesTask(e) && KeyOf(e) == key))
            && RowAt(t.rows, key) == Updated(RowAt(s.rows, key), key, e)
  {
  }

  /** One row per named task, holding exactly its closed form. */
  lemma {:induction false} RowsForm(es: seq<Event>, key: Key)
    ensures RowMatches(FoldEvents(es), es, key)
  {
    if es != [] {
      var s, e := FoldEvents(es[..|es| - 1]), es[|es| - 1];
      RowsForm(es[..|es| - 1], key);
      RowFormStep(es, key);
      RowStep(s, e, key);
      RowMatchesStep(s, Consumed(s, e), es, key);
    }
  }

  lemma RowMatchesStep(s: State, t: State, es: seq<Event>, key: Key)
    requires es != [] && RowMatches(s, es[..|es| - 1], key)
    requires var e := es[|es| - 1];
             && (key in t.rows <==> key in s.rows || (NamesTask(e) && KeyOf(e) == key))
             && RowAt(t.rows, key) == Updated(RowAt(s.rows, key), key, e)
             && RowForm(es, key) == Updated(RowForm(es[..|es| - 1], key), key, e)
    ensures RowMatches(t, es, key)
  {
  }

  lemma EndFormStep(es: seq<Event>, key: Key)
    requires es != []
    ensures var (front, e) := (es[..|es| - 1], es[|es| - 1]);
            && EndForm(es, key) == (if Ends(key)(e) then (OutcomeOf(e.cls), Time(e)) else EndForm(front, key))
            && StartForm(es, key) == (if Starts(key)(e) then (Time(e), Get(e, Pid)) else StartForm(front, key))
            && BackendForm(es, key) == (if Classifies(key)(e) then Get(e, LocalData) else BackendForm(front, key))
  {
  }

  lemma LogFormStep(es: seq<Event>, key: Key)
    requires es != []
    ensures var e, before := es[|es| - 1], LogForm(es[..|es| - 1], key);
            LogForm(es, key) ==
            if FailsWithLog(key)(e) then Get(e, Logfile)
            else if StartsWithLog(key)(e) && before == Null then Get(e, Logfile)
            else before
  {
    var front := es[..|es| - 1];
    FirstIndexExact(front, StartsWithLog(key), FirstIndex(front, StartsWithLog(key)));
    LastIndexExact(front, FailsWithLog(key), LastIndex(front, FailsWithLog(key)));
  }

  /** How one more event moves the closed form. */
  lemma RowFormStep(es: seq<Event>, key: Key)
    requires es != []
    ensures RowForm(es, key) == Updated(RowForm(es[..|es| - 1], key), key, es[|es| - 1])
  {
    EndFormStep(es, key);
    LogFormStep(es, key);
  }

  lemma FirstAndLast(es: seq<Event>, p: Event -> bool)
    ensures FirstIndex(es, p) >= 0 <==> LastIndex(es, p) >= 0
  {
    FirstIndexExact(es, p, FirstIndex(es, p));
    LastIndexExact(es, p, LastIndex(es, p));
  }

  ghost predicate OrderMatches(s: State, es: seq<Event>) {
    && (forall i, j | 0 <= i < j < |s.order| :: FirstIndex(es, Names(s.order[i])) < FirstIndex(es, Names(s.order[j])))
    && (forall key :: key in s.order <==> key in s.rows)
    && (forall key | key in s.order :: FirstIndex(es, Names(key)) >= 0)
  }

  lemma OrderStep(s: State, e: Event)
    ensures var t := Consumed(s, e);
            && t.rows.Keys == s.rows.Keys + (if NamesTask(e) then {KeyOf(e)} else {})
            && t.order == s.order + (if NamesTask(e) && KeyOf(e) !in s.rows then [KeyOf(e)] else [])
  {
  }

  lemma FirstIndexKept(es: seq<Event>, p: Event -> bool)
    requires es != [] && FirstIndex(es[..|es| - 1], p) >= 0
    ensures FirstIndex(es, p) == FirstIndex(es[..|es| - 1], p)
  {
  }

  lemma FirstsKept(order: seq<Key>, es: seq<Event>)
    requires es != [] && forall key | key in order :: FirstIndex(es[..|es| - 1], Names(key)) >= 0
    ensures forall key | key in order ::
              FirstIndex(es, Names(key)) == FirstIndex(es[..|es| - 1], Names(key)) < |es| - 1
  {
    forall key | key in order
      ensures FirstIndex(es, Names(key)) == FirstIndex(es[..|es| - 1], Names(key)) < |es| - 1
    {
      FirstIndexKept(es, Names(key));
    }
  }

  lemma OrderKept(s: State, es: seq<Event>)
    requires es != [] && OrderMatches(s, es[..|es| - 1])
    ensures OrderMatches(s, es)
    ensures forall key | key in s.order :: FirstIndex(es, Names(key)) < |es| - 1
  {
    FirstsKept(s.order, es);
    forall i, j | 0 <= i < j < |s.order|
      ensures FirstIndex(es, Names(s.order[i])) < FirstIndex(es, Names(s.order[j]))
    {
      assert s.order[i] in s.order && s.order[j] in s.order;
    }
  }

  lemma FirstMention(es: seq<Event>, k: Key)
    requires es != [] && Names(k)(es[|es| - 1]) && LastIndex(es[..|es| - 1], Names(k)) < 0
    ensures FirstIndex(es, Names(k)) == |es| - 1
  {
    FirstAndLast(es[..|es| - 1], Names(k));
  }

  lemma SameKeys(s: State, t: State, es: seq<Event>)
    requires t.order == s.order && t.rows.Keys == s.rows.Keys
    requires OrderMatches(s, es)
    ensures OrderMatches(t, es)
  {
    forall key ensures key in t.order <==> key in t.rows {
      assert key in t.rows <==> key in s.rows.Keys;
    }
  }

  lemma NewKeyIsLast(s: State, t: State, es: seq<Event>, k: Key)
    requires OrderMatches(s, es) && t.order == s.order + [k] && t.rows.Keys == s.rows.Keys + {k}
    requires forall key | key in s.order :: FirstIndex(es, Names(key)) < FirstIndex(es, Names(k))
    requires FirstIndex(es, Names(k)) >= 0
    ensures OrderMatches(t, es)
  {
    NewKeyInOrder(s.order, es, k);
    KeysListed(s, t, k);
  }

  lemma KeysListed(s: State, t: State, k: Key)
    requires t.order == s.order + [k] && t.rows.Keys == s.rows.Keys + {k}
    requires forall key :: key in s.order <==> key in s.rows
    ensures forall key :: key in t.order <==> key in t.rows
  {
    forall key ensures key in t.order <==> key in t.rows {
      assert key in t.rows <==> key in t.rows.Keys;
    }
  }

  lemma NewKeyInOrder(order: seq<Key>, es: seq<Event>, k: Key)
    requires FirstIndex(es, Names(k)) >= 0
    requires forall key | key in order :: 0 <= FirstIndex(es, Names(key)) < FirstIndex(es, Names(k))
    requires forall i, j | 0 <= i < j < |order| :: FirstIndex(es, Names(order[i])) < FirstIndex(es, Names(order[j]))
    ensures var more := order + [k];
            && (forall i, j | 0 <= i < j < |more| :: FirstIndex(es, Names(more[i])) < FirstIndex(es, Names(more[j])))
            && (forall key | key in more :: FirstIndex(es, Names(key)) >= 0)
  {
    var more := order + [k];
    forall i, j | 0 <= i < j < |more| ensures FirstIndex(es, Names(more[i])) < FirstIndex(es, Names(more[j])) {
      assert more[i] == order[i] && order[i] in order;
      assert j < |order| ==> more[j] == order[j];
    }
    assert forall key | key in more :: key == k || key in order;
  }

  /** The dictionary's keys, without repetition, in order of first mention. */
  lemma {:induction false} OrderForm(es: seq<Event>)
    ensures OrderMatches(FoldEvents(es), es)
  {
    if es != [] {
      var front, e := es[..|es| - 1], es[|es| - 1];
      var s := FoldEvents(front);
      OrderForm(front);
      OrderKept(s, es);
      OrderStep(s, e);
      if NamesTask(e) && KeyOf(e) !in s.rows {
        RowsForm(front, KeyOf(e));
        FirstMention(es, KeyOf(e));
        NewKeyIsLast(s, Consumed(s, e), es, KeyOf(e));
      } else {
        SameKeys(s, Consumed(s, e), es);
      }
    }
  }

  // ------------------------------------------------------------------------ running tasks

  datatype RunningTask = RunningTask(recipe: Value, task: Value, started: Value, cacheBackend: Value)

  /** Selects the rows that have started and not ended, in row order. */
  function RunningFromRows(rows: seq<Row>): seq<RunningTask> {
    if rows == [] then []
    else
      var r := rows[0];
      (if r.outcome.Pending? && r.started != Null
       then [RunningTask(r.recipe, r.task, r.started, r.cacheBackend)]
       else [])
      + RunningFromRows(rows[1..])
  }

  /** Rows in the dictionary's order. */
  function TaskRows(s: State): seq<Row> {
    seq(|s.order|, i requires 0 <= i < |s.order| => RowAt(s.rows, s.order[i]))
  }

  lemma {:induction false} RunningMembers(rows: seq<Row>, t: RunningTask)
    ensures t in RunningFromRows(rows) <==>
            exists r | r in rows :: r.outcome.Pending? && r.started != Null &&
              t == RunningTask(r.recipe, r.task, r.started, r.cacheBackend)
  {
    if rows != [] {
      RunningMembers(rows[1..], t);
      assert rows == [rows[0]] + rows[1..];
    }
  }

  /** A task is running exactly when it has no terminal event and its latest
      TaskStarted carried a time, and then it is listed with that time. */
  ghost predicate Running(es: seq<Event>, key: Key) {
    var start := LastIndex(es, Starts(key));
    LastIndex(es, Ends(key)) < 0 && start >= 0 && Time(es[start]) != Null
  }

  ghost function RunningAs(es: seq<Event>, key: Key): RunningTask {
    RunningTask(key.0, key.1, StartForm(es, key).0, BackendForm(es, key))
  }

  /** A listed task is some row of the state, pending and started. */
  lemma ListedRow(s: State, t: RunningTask) returns (key: Key)
    requires t in RunningFromRows(TaskRows(s))
    ensures key in s.order
    ensures var row := RowAt(s.rows, key);
            row.outcome.Pending? && row.started != Null &&
            t == RunningTask(row.recipe, row.task, row.started, row.cacheBackend)
  {
    var rows := TaskRows(s);
    RunningMembers(rows, t);
    var r :| r in rows && r.outcome.Pending? && r.started != Null &&
             t == RunningTask(r.recipe, r.task, r.started, r.cacheBackend);
    var i :| 0 <= i < |rows| && rows[i] == r;
    key := s.order[i];
  }

  lemma RowIsListed(s: State, key: Key)
    requires key in s.order && RowAt(s.rows, key).outcome.Pending? && RowAt(s.rows, key).started != Null
    ensures var r := RowAt(s.rows, key);
            RunningTask(r.recipe, r.task, r.started, r.cacheBackend) in RunningFromRows(TaskRows(s))
  {
    var r := RowAt(s.rows, key);
    var i :| 0 <= i < |s.order| && s.order[i] == key;
    assert TaskRows(s)[i] == r;
    RunningMembers(TaskRows(s), RunningTask(r.recipe, r.task, r.started, r.cacheBackend));
  }

  lemma ListedIsRunning(es: seq<Event>, t: RunningTask)
    requires t in RunningFromRows(TaskRows(FoldEvents(es)))
    ensures Running(es, (t.recipe, t.task)) && t == RunningAs(es, (t.recipe, t.task))
  {
    var key := ListedRow(FoldEvents(es), t);
    RowAtForm(es, key);
    StartedForm(es, key);
  }

  /** Of a named task and of any other, the row is its closed form. */
  lemma RowAtForm(es: seq<Event>, key: Key)
    ensures RowAt(FoldEvents(es).rows, key) == RowForm(es, key)
  {
    RowsForm(es, key);
  }

  lemma StartedForm(es: seq<Event>, key: Key)
    requires RowForm(es, key).outcome.Pending? && RowForm(es, key).started != Null
    ensures Running(es, key)
  {
    if LastIndex(es, Ends(key)) >= 0 {
      EndedForm(es, key);
    }
  }

  lemma EndedForm(es: seq<Event>, key: Key)
    requires LastIndex(es, Ends(key)) >= 0
    ensures !RowForm(es, key).outcome.Pending?
  {
    LastIndexExact(es, Ends(key), LastIndex(es, Ends(key)));
  }

  lemma RunningIsListed(es: seq<Event>, key: Key)
    requires Running(es, key)
    ensures RunningAs(es, key) in RunningFromRows(TaskRows(FoldEvents(es)))
  {
    var s, start := FoldEvents(es), LastIndex(es, Starts(key));
    LastIndexExact(es, Starts(key), start);
    LastIndexExact(es, Names(key), -1);
    assert Starts(key)(es[start]) && Names(key)(es[start]);
    OrderForm(es);
    RowAtForm(es, key);
    RowIsListed(s, key);
  }

  /** Exactly what is listed: the tasks that are running, each with its latest start time
      and its latest cache classification. */
  lemma RunningExact(es: seq<Event>, t: RunningTask)
    ensures t in RunningFromRows(TaskRows(FoldEvents(es))) <==>
            Running(es, (t.recipe, t.task)) && t == RunningAs(es, (t.recipe, t.task))
  {
    if t in RunningFromRows(TaskRows(FoldEvents(es))) {
      ListedIsRunning(es, t);
    }
    if Running(es, (t.recipe, t.task)) {
      RunningIsListed(es, (t.recipe, t.task));
    }
  }

  /** Once a task has ended it never reads as pending again. */
  lemma OutcomeNeverReturns(es: seq<Event>, e: Event, key: Key)
    requires key in FoldEvents(es).rows && !FoldEvents(es).rows[key].outcome.Pending?
    ensures key in FoldEvents(es + [e]).rows && !FoldEvents(es + [e]).rows[key].outcome.Pending?
  {
    assert (es + [e])[..|es|] == es;
    RowStep(FoldEvents(es), e, key);
  }
}
