/** The cluster ceiling rendezvous (`diagnostics.py`): every node publishes its own record
    first and only then reads everyone else's. Nodes run the check any number of times, in
    any interleaving. */
module Ceiling {
  import opened Base

  type Node = nat

  /** A record file on the shared mount; `Malformed` is one that cannot be read as a
      ceiling by anybody. */
  datatype Record = Readable(ceiling: string) | Malformed

  datatype Verdict = Pass | Warn | Block

  /** What reading one sibling record tells this node. */
  datatype Reading = Agrees | Disagrees | Unreadable

  function ReadingOf(record: Option<Record>, ceiling: string): Reading {
    match record
    case Some(Readable(peer)) => if peer == "" then Unreadable else if peer == ceiling then Agrees else Disagrees
    case _ => Unreadable
  }

  /** One sibling record as it was found: its file name, and what it held when it was read
      (None when it was gone or could not be read). */
  datatype Entry = Entry(name: string, record: Option<Record>)

  /** The comparison loop of one check, over the listed siblings. */
  method Judge(own: string, ceiling: string, entries: seq<Entry>)
    returns (verdict: Verdict, peers: seq<string>, disagreements: seq<string>, unreadable: seq<string>)
    ensures verdict == Block <==> exists e | e in entries :: e.name != own && ReadingOf(e.record, ceiling) == Disagrees
    ensures verdict == Pass <==> forall e | e in entries :: e.name == own || ReadingOf(e.record, ceiling) == Agrees
    ensures forall n :: n in disagreements <==>
              exists e | e in entries :: e.name == n != own && ReadingOf(e.record, ceiling) == Disagrees
    ensures forall n :: n in unreadable <==>
              exists e | e in entries :: e.name == n != own && ReadingOf(e.record, ceiling) == Unreadable
    ensures forall n :: n in peers <==>
              exists e | e in entries :: e.name == n != own && ReadingOf(e.record, ceiling) != Unreadable
  {
    peers, disagreements, unreadable := [], [], [];
    for i := 0 to |entries|
      invariant forall n :: n in disagreements <==>
                  exists k | 0 <= k < i ::
                    entries[k].name == n != own && ReadingOf(entries[k].record, ceiling) == Disagrees
      invariant forall n :: n in unreadable <==>
                  exists k | 0 <= k < i ::
                    entries[k].name == n != own && ReadingOf(entries[k].record, ceiling) == Unreadable
      invariant forall n :: n in peers <==>
                  exists k | 0 <= k < i :: entries[k].name == n != own
                      && ReadingOf(entries[k].record, ceiling) != Unreadable
    {
      var e := entries[i];
      if e.name != own {
        match ReadingOf(e.record, ceiling)
        case Unreadable => unreadable := unreadable + [e.name];
        case Agrees => peers := peers + [e.name];
        case Disagrees =>
          peers := peers + [e.name];
          disagreements := disagreements + [e.name];
      }
    }
    verdict := if disagreements != [] then Block else if unreadable != [] then Warn else Pass;
    assert disagreements != [] ==> disagreements[0] in disagreements;
    assert unreadable != [] ==> unreadable[0] in unreadable;
    forall e | e in entries && e.name != own
      ensures ReadingOf(e.record, ceiling) == Disagrees ==> e.name in disagreements
      ensures ReadingOf(e.record, ceiling) == Unreadable ==> e.name in unreadable
    {
      var k :| 0 <= k < |entries| && entries[k] == e;
    }
  }

  // ------------------------------------------------------------------------- the protocol

  /** Where one node's latest check stands. `published` says its own record was written in
      this check, at logical time `at`. */
  datatype Phase = Idle | Starting | Published | Comparing(todo: set<string>) | Done(verdict: Verdict)

  datatype Check = Check(phase: Phase, ceiling: string, published: bool, at: nat, disagrees: bool, unread: bool)

  /** The shared directory by file name, the nodes, and a clock that ticks at each publish. */
  datatype Cluster = Cluster(records: map<string, Record>, checks: map<Node, Check>, clock: nat)

  datatype Action =
    | Begin(n: Node, ceiling: string)
    | Publish(n: Node)
    | PublishFails(n: Node)
    | ListPeers(n: Node)
    | ReadPeer(n: Node, name: string, fails: bool)
    | Finish(n: Node)
    | DropMalformed(name: string)

  const NEVER: Check := Check(Idle, "", false, 0, false, false)

  function CheckOf(c: Cluster, n: Node): Check {
    if n in c.checks then c.checks[n] else NEVER
  }

  function Lookup(records: map<string, Record>, name: string): Option<Record> {
    if name in records then Some(records[name]) else None
  }

  function VerdictOf(k: Check): Verdict {
    if k.disagrees then Block else if k.unread then Warn else Pass
  }

  function Put(c: Cluster, n: Node, k: Check): Cluster {
    c.(checks := c.checks[n := k])
  }

  /** `host` names each node's record file. */
  function Apply(host: Node -> string, c: Cluster, a: Action): Cluster {
    match a
    case Begin(n, ceiling) => Put(c, n, Check(Starting, ceiling, false, 0, false, false))
    case Publish(n) =>
      var k := CheckOf(c, n);
      if k.phase == Starting then
        Put(c.(records := c.records[host(n) := Readable(k.ceiling)], clock := c.clock + 1), n,
            k.(phase := Published, published := true, at := c.clock))
      else c
    case PublishFails(n) =>
      var k := CheckOf(c, n);
      if k.phase == Starting then Put(c, n, k.(phase := Done(Warn))) else c
    case ListPeers(n) =>
      var k := CheckOf(c, n);
      if k.phase == Published then Put(c, n, k.(phase := Comparing(c.records.Keys - {host(n)}))) else c
    case ReadPeer(n, name, fails) =>
      var k := CheckOf(c, n);
      if k.phase.Comparing? && name in k.phase.todo then
        var reading := if fails then Unreadable else ReadingOf(Lookup(c.records, name), k.ceiling);
        Put(c, n, k.(phase := Comparing(k.phase.todo - {name}),
                     disagrees := k.disagrees || reading == Disagrees,
                     unread := k.unread || reading == Unreadable))
      else c
    case Finish(n) =>
      var k := CheckOf(c, n);
      if k.phase == Comparing({}) then Put(c, n, k.(phase := Done(VerdictOf(k)))) else c
    case DropMalformed(name) =>
      if Lookup(c.records, name) == Some(Malformed) then c.(records := c.records - {name}) else c
  }

  function Exec(host: Node -> string, c: Cluster, actions: seq<Action>): Cluster
    decreases |actions|
  {
    if actions == [] then c else Exec(host, Apply(host, c, actions[0]), actions[1..])
  }

  /** Before any node has checked; the directory may hold anything. */
  function Fresh(records: map<string, Record>): Cluster {
    Cluster(records, map[], 0)
  }

  ghost predicate DistinctHosts(host: Node -> string) {
    forall a, b | a != b :: host(a) != host(b)
  }

  /** While a node's own record from its latest check is up, it is the latest one. */
  ghost predicate OwnOk(host: Node -> string, c: Cluster, n: Node) {
    var k := CheckOf(c, n);
    && (k.published ==> Lookup(c.records, host(n)) == Some(Readable(k.ceiling)) && k.at < c.clock)
    && (k.phase.Published? || k.phase.Comparing? ==> k.published)
    && (k.phase == Done(Pass) ==> k.published && !k.disagrees && !k.unread)
  }

  /** What a later publisher already knows, or still has to read, about an earlier one. */
  ghost predicate PairOk(host: Node -> string, c: Cluster, early: Node, late: Node) {
    var (e, l) := (CheckOf(c, early), CheckOf(c, late));
    e.published && l.published && e.at < l.at ==>
      match l.phase
      case Comparing(todo) => host(early) in todo || l.disagrees || l.unread || e.ceiling == l.ceiling
      case Done(verdict) => verdict != Pass || e.ceiling == l.ceiling
      case _ => true
  }

  ghost predicate Inv(host: Node -> string, c: Cluster) {
    && (forall n :: OwnOk(host, c, n))
    && (forall a, b | a != b && CheckOf(c, a).published && CheckOf(c, b).published ::
        CheckOf(c, a).at != CheckOf(c, b).at)
    && (forall a, b | a != b :: PairOk(host, c, a, b))
  }

  /** Only the acting node's check changes, and a record only under its own name. */
  function Actor(a: Action): Option<Node> {
    if a.DropMalformed? then None else Some(a.n)
  }

  lemma OthersKeep(host: Node -> string, c: Cluster, a: Action, n: Node)
    requires DistinctHosts(host) && Actor(a) != Some(n)
    ensures CheckOf(Apply(host, c, a), n) == CheckOf(c, n) && c.clock <= Apply(host, c, a).clock
    ensures Lookup(c.records, host(n)) != Some(Malformed) ==>
              Lookup(Apply(host, c, a).records, host(n)) == Lookup(c.records, host(n))
  {
    if a.Publish? {
      assert host(a.n) != host(n);
    }
  }

  lemma OwnKeeps(host: Node -> string, c: Cluster, a: Action, n: Node)
    requires DistinctHosts(host) && OwnOk(host, c, n)
    ensures OwnOk(host, Apply(host, c, a), n)
  {
    if Actor(a) != Some(n) {
      OthersKeep(host, c, a, n);
    }
  }

  lemma PairKeeps(host: Node -> string, c: Cluster, a: Action, early: Node, late: Node)
    requires DistinctHosts(host) && early != late
    requires OwnOk(host, c, early) && OwnOk(host, c, late) && PairOk(host, c, early, late)
    ensures PairOk(host, Apply(host, c, a), early, late)
  {
    if Actor(a) != Some(early) { OthersKeep(host, c, a, early); }
    if Actor(a) != Some(late) { OthersKeep(host, c, a, late); }
    assert host(early) != host(late);
  }

  lemma ApplyKeeps(host: Node -> string, c: Cluster, a: Action)
    requires DistinctHosts(host) && Inv(host, c)
    ensures Inv(host, Apply(host, c, a))
  {
    var c' := Apply(host, c, a);
    forall n ensures OwnOk(host, c', n) {
      OwnKeeps(host, c, a, n);
    }
    forall x: Node, y: Node | x != y && CheckOf(c', x).published && CheckOf(c', y).published
      ensures CheckOf(c', x).at != CheckOf(c', y).at
    {
      assert OwnOk(host, c, x) && OwnOk(host, c, y);
      if Actor(a) != Some(x) { OthersKeep(host, c, a, x); }
      if Actor(a) != Some(y) { OthersKeep(host, c, a, y); }
    }
    forall x: Node, y: Node | x != y ensures PairOk(host, c', x, y) {
      assert OwnOk(host, c, x) && OwnOk(host, c, y);
      PairKeeps(host, c, a, x, y);
    }
  }

  lemma {:induction false} InvAlways(host: Node -> string, c: Cluster, actions: seq<Action>)
    requires DistinctHosts(host) && Inv(host, c)
    ensures Inv(host, Exec(host, c, actions))
    decreases |actions|
  {
    if actions != [] {
      ApplyKeeps(host, c, actions[0]);
      InvAlways(host, Apply(host, c, actions[0]), actions[1..]);
    }
  }

  lemma FreshOk(host: Node -> string, records: map<string, Record>)
    ensures Inv(host, Fresh(records))
  {
  }

  /** The safety theorem, for any number of nodes and any interleaving: whenever two nodes'
      latest checks have both passed, their ceilings, and their records, are the same. */
  lemma PassedNodesAgree(host: Node -> string, records: map<string, Record>, actions: seq<Action>, a: Node, b: Node)
    requires DistinctHosts(host)
    requires var c := Exec(host, Fresh(records), actions);
             CheckOf(c, a).phase == Done(Pass) && CheckOf(c, b).phase == Done(Pass)
    ensures var c := Exec(host, Fresh(records), actions);
            && CheckOf(c, a).ceiling == CheckOf(c, b).ceiling
            && Lookup(c.records, host(a)) == Lookup(c.records, host(b)) == Some(Readable(CheckOf(c, a).ceiling))
  {
    var c := Exec(host, Fresh(records), actions);
    FreshOk(host, records);
    InvAlways(host, Fresh(records), actions);
    assert OwnOk(host, c, a) && OwnOk(host, c, b);
    if a != b {
      assert PairOk(host, c, a, b) && PairOk(host, c, b, a);
    }
  }

  /** Of two nodes whose latest checks published different ceilings, the one that
      published second never passes. */
  lemma SecondPublisherNeverPasses(host: Node -> string, records: map<string, Record>, actions: seq<Action>,
          early: Node, late: Node)
    requires DistinctHosts(host)
    requires var c := Exec(host, Fresh(records), actions);
             && CheckOf(c, early).published && CheckOf(c, late).published && CheckOf(c, early).at < CheckOf(c, late).at
             && CheckOf(c, early).ceiling != CheckOf(c, late).ceiling
    ensures CheckOf(Exec(host, Fresh(records), actions), late).phase != Done(Pass)
  {
    FreshOk(host, records);
    InvAlways(host, Fresh(records), actions);
    assert PairOk(host, Exec(host, Fresh(records), actions), early, late);
  }

  /** One undisturbed check by a node whose directory holds at most its own record. */
  lemma LoneCheckPasses(host: Node -> string, c: Cluster, n: Node, ceiling: string)
    requires c.records.Keys <= {host(n)}
    ensures var c' := Exec(host, c, [Begin(n, ceiling), Publish(n), ListPeers(n), Finish(n)]);
            && CheckOf(c', n).phase == Done(Pass) && CheckOf(c', n).ceiling == ceiling
            && c'.records.Keys <= {host(n)} && forall m | m != n :: CheckOf(c', m) == CheckOf(c, m)
  {
    var c1 := Apply(host, c, Begin(n, ceiling));
    var c2 := Apply(host, c1, Publish(n));
    var c3 := Apply(host, c2, ListPeers(n));
    assert c2.records.Keys - {host(n)} == {};
    var c4 := Apply(host, c3, Finish(n));
    var actions := [Begin(n, ceiling), Publish(n), ListPeers(n), Finish(n)];
    assert actions[1..] == [Publish(n), ListPeers(n), Finish(n)] && actions[1..][1..] == [ListPeers(n), Finish(n)];
    assert actions[1..][1..][1..] == [Finish(n)] && actions[1..][1..][1..][1..] == [];
    assert Exec(host, c3, [Finish(n)]) == c4;
    assert Exec(host, c2, [ListPeers(n), Finish(n)]) == c4;
    assert Exec(host, c1, [Publish(n), ListPeers(n), Finish(n)]) == c4;
  }

  /** The record is named after the hostname alone: two machines that share one can both
      pass with different ceilings, one after the other. */
  lemma SharedHostnameDefeatsCheck(host: Node -> string, a: Node, b: Node, x: string, y: string)
    requires a != b && host(a) == host(b)
    ensures var c := Exec(host, Exec(host, Fresh(map[]), [Begin(a, x), Publish(a), ListPeers(a), Finish(a)]),
                          [Begin(b, y), Publish(b), ListPeers(b), Finish(b)]);
            && CheckOf(c, a).phase == Done(Pass) && CheckOf(c, b).phase == Done(Pass)
            && CheckOf(c, a).ceiling == x && CheckOf(c, b).ceiling == y
  {
    LoneCheckPasses(host, Fresh(map[]), a, x);
    LoneCheckPasses(host, Exec(host, Fresh(map[]), [Begin(a, x), Publish(a), ListPeers(a), Finish(a)]), b, y);
  }
}
