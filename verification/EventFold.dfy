/** How decoded build events become the normalized artifact: the accumulator shared by
    the batch and incremental readers (`eventlog.py`), and its closed form. */
module EventFold {
  import opened Base

  /** The attribute, key and variable names the reader asks for, one constructor each,
      and `Named` for any other. */
  datatype Name =
    | Package | TaskAttr | TaskName | TimeAttr | Timestamp | Pid | Logfile | ErrPrinted | TypeAttr | LocalData
    | Stats | StatTotal | StatCompleted | StatActive | SetsceneCovered | SetsceneNotCovered | SetsceneTotal
    | DiskUsage | TotalBytes | FreeBytes | Cpu | Io | Memory
    | Dev | KindAttr | FreeAttr | Mountpoint
    | V | BakarThreads | Threads | BakarMake | Make
    | Named(text: string)

  /** A decoded field. `Num` is an integer or a float, by its value. `CacheMarker` is the one
      text the fold compares against, the type of a cache classification event. `Stub` is an
      unpickled object, told apart from any other by its `id`, and `Other` any value this
      model does not look inside. */
  datatype Value =
    | Null
    | Num(n: real)
    | Text(s: string)
    | CacheMarker
    | Dict(items: seq<(Name, Value)>)
    | Stub(id: int, attrs: map<Name, Value>)
    | Other(id: int, hashable: bool, truthy: bool)

  predicate Hashable(v: Value) {
    match v
    case Dict(_) => false
    case Other(_, hashable, _) => hashable
    case _ => true
  }

  predicate Truthy(v: Value) {
    match v
    case Null => false
    case Num(n) => n != 0.0
    case Text(s) => s != ""
    case CacheMarker => true
    case Dict(items) => items != []
    case Stub(_, _) => true
    case Other(_, _, truthy) => truthy
  }

  /** Python's `value or 0`. */
  function OrZero(v: Value): Value {
    if Truthy(v) then v else Num(0.0)
  }

  function Lookup(items: seq<(Name, Value)>, name: Name): Value {
    if items == [] then Null
    else if items[0].0 == name then items[0].1
    else Lookup(items[1..], name)
  }

  /** `getattr(value, name, None)`: only objects carry attributes. */
  function Attr(v: Value, name: Name): Value {
    if v.Stub? && name in v.attrs then v.attrs[name] else Null
  }

  /** Reads a statistic from an object or a dict. */
  function Stat(stats: Value, name: Name): Value {
    if stats.Dict? then Lookup(stats.items, name) else Attr(stats, name)
  }

  datatype Class =
    | BuildStarted
    | BuildCompleted
    | TaskStarted
    | TaskSucceeded
    | TaskFailed
    | TaskFailedSilent
    | RunQueueTaskStarted
    | PsiEvent
    | MonitorDiskEvent
    | DiskUsageSample
    | DiskFull
    | MetadataEvent

  datatype Event = Event(cls: Class, attrs: map<Name, Value>)

  function Get(e: Event, name: Name): Value {
    if name in e.attrs then e.attrs[name] else Null
  }

  /** The first non-None attribute among two names. */
  function First2(e: Event, a: Name, b: Name): Value {
    if Get(e, a) != Null then Get(e, a) else Get(e, b)
  }

  function Time(e: Event): Value {
    First2(e, TimeAttr, Timestamp)
  }

  type Key = (Value, Value)

  function KeyOf(e: Event): Key {
    (Get(e, Package), First2(e, TaskAttr, TaskName))
  }

  /** The events that name a task row. */
  predicate NamesTask(e: Event) {
    || e.cls.TaskStarted? || e.cls.TaskSucceeded? || e.cls.TaskFailed? || e.cls.TaskFailedSilent?
    || (e.cls.MetadataEvent? && Get(e, TypeAttr) == CacheMarker)
  }

  /** Looking up a task row by an unhashable key raises before anything is changed. */
  predicate Raises(e: Event) {
    NamesTask(e) && !(Hashable(KeyOf(e).0) && Hashable(KeyOf(e).1))
  }

  datatype TaskOutcome = Pending | Succeeded | Failed | FailedSilent

  datatype BuildOutcome = Unknown | BuildFailed | Success

  datatype Row = Row(
    recipe: Value, task: Value, outcome: TaskOutcome, started: Value, completed: Value,
    pid: Value, logfile: Value, cacheBackend: Value)

  datatype Failure = Failure(recipe: Value, task: Value, logfile: Value, errprinted: Value)

  datatype Build = Build(
    started: Value, completed: Value, outcome: BuildOutcome,
    tasksTotal: Value, tasksCompleted: Value, tasksActive: Value)

  datatype Setscene = Setscene(covered: Value, notcovered: Value, total: Value)

  datatype Psi = Psi(time: Value, cpu: Value, io: Value, memory: Value)

  datatype DiskSample = DiskSample(path: Option<Name>, used: Value, free: Value, total: Value)

  datatype FullDisk = FullDisk(dev: Value, kind: Value, free: Value, mountpoint: Value)

  /** `order` is the insertion order of the task dictionary. */
  datatype State = State(
    build: Build, order: seq<Key>, rows: map<Key, Row>, failures: seq<Failure>,
    setscene: Setscene, setsceneSeen: bool, sawFailure: bool,
    psi: seq<Psi>, disk: seq<DiskSample>, full: seq<FullDisk>, variables: map<Name, Value>)

  const EMPTY: State := State(
    Build(Null, Null, Unknown, Null, Null, Null), [], map[], [],
    Setscene(Num(0.0), Num(0.0), Num(0.0)), false, false, [], [], [], map[])

  function BlankRow(key: Key): Row {
    Row(key.0, key.1, Pending, Null, Null, Null, Null, Null)
  }

  /** The row of a key: the one recorded, or the blank one it would start as. */
  function RowAt(rows: map<Key, Row>, key: Key): Row {
    if key in rows then rows[key] else BlankRow(key)
  }

  function FailureOf(e: Event): Failure {
    Failure(KeyOf(e).0, KeyOf(e).1, Get(e, Logfile), Get(e, ErrPrinted))
  }

  /** A row after a terminal event. */
  function Ended(row: Row, e: Event, outcome: TaskOutcome): Row {
    var logfile := Get(e, Logfile);
    row.(outcome := outcome, completed := Time(e),
         logfile := if outcome.Succeeded? || logfile == Null then row.logfile else logfile)
  }

  predicate UsableSetscene(e: Event) {
    e.cls.RunQueueTaskStarted? &&
    var stats := Get(e, Stats);
    || Stat(stats, SetsceneCovered) != Null
    || Stat(stats, SetsceneNotCovered) != Null
    || Stat(stats, SetsceneTotal) != Null
  }

  predicate HasTotal(e: Event) {
    e.cls.RunQueueTaskStarted? && Stat(Get(e, Stats), StatTotal) != Null
  }

  function SetsceneOf(e: Event): Setscene {
    var stats := Get(e, Stats);
    Setscene(
      OrZero(Stat(stats, SetsceneCovered)),
      OrZero(Stat(stats, SetsceneNotCovered)),
      OrZero(Stat(stats, SetsceneTotal)))
  }

  function UsageSamples(items: seq<(Name, Value)>): seq<DiskSample> {
    if items == [] then []
    else
      var (path, sample) := items[0];
      var total, free := Attr(sample, TotalBytes), Attr(sample, FreeBytes);
      var used := if total.Num? && free.Num? then Num(total.n - free.n) else Null;
      [DiskSample(Some(path), used, free, total)] + UsageSamples(items[1..])
  }

  function DiskSamples(e: Event): seq<DiskSample> {
    var usage := Get(e, DiskUsage);
    if usage.Dict? then UsageSamples(usage.items)
    else [DiskSample(None, Null, Get(e, FreeBytes), Get(e, TotalBytes))]
  }

  /** What an event does to the row it names. */
  function RowAfter(row: Row, e: Event): Row
    requires NamesTask(e)
  {
    match e.cls
    case TaskStarted =>
      var logfile := if row.logfile == Null then Get(e, Logfile) else row.logfile;
      row.(started := Time(e), pid := Get(e, Pid), logfile := logfile)
    case TaskSucceeded => Ended(row, e, Succeeded)
    case TaskFailed => Ended(row, e, Failed)
    case TaskFailedSilent => Ended(row, e, FailedSilent)
    case _ => row.(cacheBackend := Get(e, LocalData))
  }

  function RowsAfter(rows: map<Key, Row>, e: Event): map<Key, Row> {
    if NamesTask(e) then rows[KeyOf(e) := RowAfter(RowAt(rows, KeyOf(e)), e)] else rows
  }

  function OrderAfter(order: seq<Key>, rows: map<Key, Row>, e: Event): seq<Key> {
    if NamesTask(e) && KeyOf(e) !in rows then order + [KeyOf(e)] else order
  }

  function BuildAfter(b: Build, sawFailure: bool, e: Event): Build {
    match e.cls
    case BuildStarted => b.(started := Time(e))
    case BuildCompleted =>
      b.(completed := Time(e),
         outcome := if b.outcome.Unknown? then (if sawFailure then BuildFailed else Success) else b.outcome)
    case RunQueueTaskStarted =>
      var stats := Get(e, Stats);
      if HasTotal(e) then
        b.(tasksTotal := Stat(stats, StatTotal), tasksCompleted := OrZero(Stat(stats, StatCompleted)),
           tasksActive := OrZero(Stat(stats, StatActive)))
      else b
    case _ => b
  }

  function PsiOf(e: Event): seq<Psi> {
    if e.cls.PsiEvent? then [Psi(Time(e), Get(e, Cpu), Get(e, Io), Get(e, Memory))] else []
  }

  function DiskOf(e: Event): seq<DiskSample> {
    if e.cls.MonitorDiskEvent? || e.cls.DiskUsageSample? then DiskSamples(e) else []
  }

  function FullOf(e: Event): seq<FullDisk> {
    if e.cls.DiskFull? then [FullDisk(Get(e, Dev), Get(e, KindAttr), Get(e, FreeAttr), Get(e, Mountpoint))] else []
  }

  /** One event folded in, field by field. */
  function Consumed(s: State, e: Event): State {
    State(
      BuildAfter(s.build, s.sawFailure, e),
      OrderAfter(s.order, s.rows, e),
      RowsAfter(s.rows, e),
      s.failures + (if e.cls.TaskFailed? then [FailureOf(e)] else []),
      if !s.setsceneSeen && UsableSetscene(e) then SetsceneOf(e) else s.setscene,
      s.setsceneSeen || UsableSetscene(e),
      s.sawFailure || e.cls.TaskFailed?,
      s.psi + PsiOf(e), s.disk + DiskOf(e), s.full + FullOf(e),
      s.variables)
  }

  function FoldEvents(es: seq<Event>): State {
    if es == [] then EMPTY else Consumed(FoldEvents(es[..|es| - 1]), es[|es| - 1])
  }

  /** The outcome the artifact reports. */
  function ReportedOutcome(s: State): BuildOutcome {
    if s.build.outcome.Unknown? && s.sawFailure then BuildFailed else s.build.outcome
  }

  const WANTED := [BakarThreads, Threads, BakarMake, Make]

  function DumpScalar(raw: Value): Value {
    if raw.Dict? then Lookup(raw.items, V) else raw
  }

  function KeepWanted(dump: map<Name, Value>, into: map<Name, Value>, names: seq<Name>): map<Name, Value> {
    if names == [] then into
    else
      var rest := KeepWanted(dump, into, names[..|names| - 1]);
      var name := names[|names| - 1];
      if name in dump then rest[name := DumpScalar(dump[name])] else rest
  }

  predicate Kept(dump: map<Name, Value>, names: seq<Name>, name: Name) {
    name in names && name in dump
  }

  /** Of a dump just the wanted names are kept; every other variable stays as it was. */
  lemma {:induction false} KeepWantedExact(dump: map<Name, Value>, into: map<Name, Value>, names: seq<Name>,
          name: Name)
    ensures var after := KeepWanted(dump, into, names);
            if Kept(dump, names, name) then name in after && after[name] == DumpScalar(dump[name])
            else (name in after <==> name in into) && (name in after ==> after[name] == into[name])
    decreases |names|
  {
    if names != [] {
      var front, last := names[..|names| - 1], names[|names| - 1];
      KeepWantedExact(dump, into, front, name);
      assert names == front + [last];
      assert name in names <==> name in front || name == last;
    }
  }

  // --------------------------------------------------------------- the mutable accumulator

  /** The accumulator as the program keeps it: fields updated in place, one event at a time. */
  class NormalizeState {
    var build: Build
    var order: seq<Key>
    var rows: map<Key, Row>
    var failures: seq<Failure>
    var setscene: Setscene
    var setsceneSeen: bool
    var sawFailure: bool
    var psi: seq<Psi>
    var disk: seq<DiskSample>
    var full: seq<FullDisk>
    var variables: map<Name, Value>

    ghost function View(): State
      reads this
    {
      State(build, order, rows, failures, setscene, setsceneSeen, sawFailure, psi, disk, full, variables)
    }

    constructor ()
      ensures View() == EMPTY
    {
      build := EMPTY.build;
      order, rows, failures := [], map[], [];
      setscene, setsceneSeen, sawFailure := EMPTY.setscene, false, false;
      psi, disk, full, variables := [], [], [], map[];
    }

    /** The artifact so far. */
    method Result() returns (s: State)
      ensures s == View()
    {
      s := State(build, order, rows, failures, setscene, setsceneSeen, sawFailure, psi, disk, full, variables);
    }

    method KeepVariables(dump: map<Name, Value>)
      modifies this
      ensures View() == old(View()).(variables := KeepWanted(dump, old(variables), WANTED))
      ensures forall name ::
          if Kept(dump, WANTED, name) then name in variables && variables[name] == DumpScalar(dump[name])
          else
            && (name in variables <==> name in old(variables))
            && (name in variables ==> variables[name] == old(variables)[name])
    {
      ghost var before := variables;
      for i := 0 to |WANTED|
        invariant View() == old(View()).(variables := KeepWanted(dump, before, WANTED[..i]))
      {
        assert WANTED[..i + 1][..i] == WANTED[..i];
        if WANTED[i] in dump {
          variables := variables[WANTED[i] := DumpScalar(dump[WANTED[i]])];
        }
      }
      assert WANTED[..|WANTED|] == WANTED;
      forall name {
        KeepWantedExact(dump, before, WANTED, name);
      }
    }

    /** The row of the event's task, created on first sight; raises on an unhashable key. */
    method TaskRow(e: Event) returns (row: Option<Row>)
      requires NamesTask(e)
      modifies this
      ensures row.None? <==> Raises(e)
      ensures row.None? ==> View() == old(View())
      ensures row.Some? ==> row.value == RowAt(old(rows), KeyOf(e))
      ensures row.Some? ==>
                var (order', rows') := (OrderAfter(old(order), old(rows), e), old(rows)[KeyOf(e) := row.value]);
                View() == old(View()).(order := order', rows := rows')
    {
      var key := KeyOf(e);
      if !Hashable(key.0) || !Hashable(key.1) {
        return None;
      }
      if key in rows {
        assert rows[key := rows[key]] == rows;
        return Some(rows[key]);
      }
      var newRow := BlankRow(key);
      order := order + [key];
      rows := rows[key := newRow];
      return Some(newRow);
    }

    /** The branch of the fold that revises a task row. */
    static method ReviseRow(before: Row, e: Event) returns (row: Row)
      requires NamesTask(e)
      ensures row == RowAfter(before, e)
    {
      row := before;
      if e.cls.TaskStarted? {
        row := row.(started := Time(e));
        row := row.(pid := Get(e, Pid));
        if row.logfile == Null {
          row := row.(logfile := Get(e, Logfile));
        }
      } else if e.cls.MetadataEvent? {
        row := row.(cacheBackend := Get(e, LocalData));
      } else if e.cls.TaskSucceeded? {
        row := row.(outcome := Succeeded, completed := Time(e));
      } else {
        row := row.(outcome := if e.cls.TaskFailed? then Failed else FailedSilent, completed := Time(e));
        var logfile := Get(e, Logfile);
        if logfile != Null {
          row := row.(logfile := logfile);
        }
      }
    }

    /** Folds one event in; returns true, having changed nothing, when the event raises. */
    method Consume(e: Event) returns (raised: bool)
      modifies this
      ensures raised == Raises(e)
      ensures View() == if raised then old(View()) else Consumed(old(View()), e)
    {
      if NamesTask(e) {
        raised := ConsumeTask(e);
      } else if e.cls.RunQueueTaskStarted? {
        ConsumeStatistics(e);
        raised := false;
      } else if e.cls.BuildStarted? || e.cls.BuildCompleted? {
        ConsumeBuild(e);
        raised := false;
      } else {
        ConsumeSample(e);
        raised := false;
      }
    }

    method ConsumeTask(e: Event) returns (raised: bool)
      requires NamesTask(e)
      modifies this
      ensures raised == Raises(e)
      ensures View() == if raised then old(View()) else Consumed(old(View()), e)
    {
      var found := TaskRow(e);
      if found.None? {
        return true;
      }
      var row := ReviseRow(found.value, e);
      rows := rows[KeyOf(e) := row];
      NoteFailure(e);
      return false;
    }

    method NoteFailure(e: Event)
      modifies this
      ensures View() == old(View()).(
          failures := old(failures) + (if e.cls.TaskFailed? then [FailureOf(e)] else []),
          sawFailure := old(sawFailure) || e.cls.TaskFailed?)
    {
      if e.cls.TaskFailed? {
        sawFailure := true;
        failures := failures + [FailureOf(e)];
      }
    }

    method ConsumeBuild(e: Event)
      requires e.cls.BuildStarted? || e.cls.BuildCompleted?
      modifies this
      ensures View() == Consumed(old(View()), e)
    {
      if e.cls.BuildStarted? {
        build := build.(started := Time(e));
      } else {
        build := build.(completed := Time(e));
        if build.outcome.Unknown? {
          build := build.(outcome := if sawFailure then BuildFailed else Success);
        }
      }
    }

    method ConsumeStatistics(e: Event)
      requires e.cls.RunQueueTaskStarted?
      modifies this
      ensures View() == Consumed(old(View()), e)
    {
      CountTasks(e);
      CountSetscene(e);
    }

    method CountTasks(e: Event)
      requires e.cls.RunQueueTaskStarted?
      modifies this
      ensures View() == old(View()).(build := BuildAfter(old(build), old(sawFailure), e))
    {
      var stats := Get(e, Stats);
      var total := Stat(stats, StatTotal);
      if total != Null {
        build := build.(tasksTotal := total);
        build := build.(tasksCompleted := OrZero(Stat(stats, StatCompleted)));
        build := build.(tasksActive := OrZero(Stat(stats, StatActive)));
      }
    }

    method CountSetscene(e: Event)
      requires e.cls.RunQueueTaskStarted?
      modifies this
      ensures View() == old(View()).(
          setscene := if !old(setsceneSeen) && UsableSetscene(e) then SetsceneOf(e) else old(setscene),
          setsceneSeen := old(setsceneSeen) || UsableSetscene(e))
    {
      if !setsceneSeen && UsableSetscene(e) {
        setscene := SetsceneOf(e);
        setsceneSeen := true;
      }
    }

    method ConsumeSample(e: Event)
      requires !NamesTask(e) && !e.cls.BuildStarted? && !e.cls.BuildCompleted? && !e.cls.RunQueueTaskStarted?
      modifies this
      ensures View() == Consumed(old(View()), e)
    {
      match e.cls
      case PsiEvent => psi := psi + [Psi(Time(e), Get(e, Cpu), Get(e, Io), Get(e, Memory))];
      case MonitorDiskEvent => disk := disk + DiskSamples(e);
      case DiskUsageSample => disk := disk + DiskSamples(e);
      case DiskFull =>
        full := full + [FullDisk(Get(e, Dev), Get(e, KindAttr), Get(e, FreeAttr), Get(e, Mountpoint))];
      case _ =>
    }
  }
}
