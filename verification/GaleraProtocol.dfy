/** A whole cluster running galera-autofix, as a step system. Every node runs its own decision loop;
    the steps of different nodes, of the database servers and of the network interleave freely.

    A datagram that has been sent stays in `net` for ever: it may be delivered late, several times,
    out of order, or never. */
module GaleraProtocol {
  import opened Options
  import opened GaleraNodes

  /** The database service of one node, as `systemctl` and a client see it. */
  datatype Db = Inactive | Active | Available

  /** Where a node's decision loop stands. */
  datatype Phase =
    | Idle
    | Probing(seen: seq<bool>)      // refreshing the availability of each server, in list order
    | CoolingDown(target: nat)      // saw a peer's database up
    | Collecting(view: seq<int>)    // waiting for sequence numbers
    | Elected                       // found itself to be the bootstrap node
    | Rejoining(target: nat)        // about to stop its own database
    | Waiting(target: nat)          // stopped; polling the target's database
    | Clearing                      // saw the target up: bound to erase its own data
    | Booting                       // stopped; about to start a new cluster

  /** `numbers[k]` holds the sequence numbers node `k` may come to have during a run; `stopMayFail`
      says whether `systemctl stop` may fail, in which case the database is left as it was; `loneServes`
      whether a database can come up with no peer up although it was not started as a new cluster. */
  datatype Config = Config(servers: seq<Server>, numbers: seq<iset<int>>, stopMayFail: bool, loneServes: bool)
  {
    ghost predicate Valid()
    {
      && |numbers| == |servers|
      && (forall k :: 0 <= k < |numbers| ==> exists x :: x in numbers[k])
      && (forall i, j :: 0 <= i < j < |servers| ==> servers[i].ip != servers[j].ip)
      && (forall i, j :: 0 <= i < j < |servers| ==> servers[i].hostname != servers[j].hostname)
    }

    ghost function Ips(): (r: seq<string>)
    {
      seq(|servers|, k requires 0 <= k < |servers| => servers[k].ip)
    }

    ghost function Hosts(): (r: seq<string>)
    {
      seq(|servers|, k requires 0 <= k < |servers| => servers[k].hostname)
    }
  }

  /** One node: its decision loop, its database service, whether that was last started as a new cluster,
      whether the data directory holds the cluster's data, and the sequence number it currently reports. */
  datatype Local = Local(phase: Phase, db: Db, newCluster: bool, hasData: bool, seqno: int)

  datatype State = State(nodes: seq<Local>, net: set<Message>)

  /** What a decision loop can do next. */
  datatype Action =
    | Begin
    | Probe(up: bool)
    | EndRound                                // nothing to do, or unable to do anything
    | FindPeer(target: nat)
    | Collect
    | EndCoolDown
    | Deliver(m: Message)
    | Elect(winner: nat)
    | ForceStop(stopped: bool)
    | StartNewCluster(started: bool)
    | SeeTarget
    | GiveUpWaiting(started: bool)
    | ClearAndStart(cleared: bool, started: bool)

  /** What a database server can do by itself, or at an operator's hand. */
  datatype Event = Serve | Degrade | Die | OperatorStart | Sync(donor: nat) | Commit(number: int)

  datatype Step =
    | Act(i: nat, a: Action)
    | Happen(i: nat, e: Event)
    | Report(i: nat)                          // the reporting loop of node `i`
    | Stray(m: Message)                       // a datagram from outside the cluster

  ghost predicate WellFormed(c: Config, s: State)
  {
    && c.Valid()
    && |s.nodes| == |c.servers|
    && (forall i :: 0 <= i < |s.nodes| ==> PhaseFits(c, s.nodes[i].phase))
  }

  ghost predicate PhaseFits(c: Config, p: Phase)
  {
    && (p.Probing? ==> |p.seen| <= |c.servers|)
    && (p.Collecting? ==> |p.view| == |c.servers|)
    && (p.CoolingDown? || p.Rejoining? || p.Waiting? ==> p.target < |c.servers|)
  }

  /** The node has stopped its database, or tried to, and has not yet asked for it to be started. */
  ghost predicate HoldsDown(p: Phase)
  {
    p.Waiting? || p.Clearing? || p.Booting?
  }

  /** This round has found the local database down and every server probed. */
  ghost predicate MayIntervene(c: Config, l: Local)
  {
    l.phase.Probing? && |l.phase.seen| == |c.servers| > 1 && l.db != Available
  }

  ghost predicate Init(c: Config, s: State)
  {
    && WellFormed(c, s)
    && (forall i :: 0 <= i < |s.nodes| ==> InitNode(s.nodes[i]) && s.nodes[i].seqno in c.numbers[i])
    && s.net == {}
  }

  ghost predicate InitNode(l: Local)
  {
    l.phase == Idle && (l.db == Available ==> l.hasData)
  }

  ghost predicate ActionEnabled(c: Config, s: State, i: nat, a: Action)
    requires WellFormed(c, s) && i < |s.nodes|
  {
    var l := s.nodes[i];
    match a
    case Begin => l.phase.Idle?
    case Probe(up) =>
      && l.phase.Probing? && |l.phase.seen| < |c.servers|
      && (up ==> s.nodes[|l.phase.seen|].db == Available)
    case EndRound => l.phase.CoolingDown? || l.phase.Collecting? || (l.phase.Probing? && |l.phase.seen| == |c.servers|)
    case FindPeer(target) =>
      MayIntervene(c, l) && IsFirstAvailablePeer(c.Hosts(), l.phase.seen, c.servers[i].hostname, target)
    case Collect =>
      && MayIntervene(c, l)
      && (forall p :: !IsFirstAvailablePeer(c.Hosts(), l.phase.seen, c.servers[i].hostname, p))
    case EndCoolDown => l.phase.CoolingDown? && l.db != Available
    case Deliver(m) => l.phase.Collecting? && !AllReported(l.phase.view) && m in s.net
    case Elect(winner) => l.phase.Collecting? && Chosen(l.phase.view, winner)
    case ForceStop(stopped) => (l.phase.Elected? || l.phase.Rejoining?) && (!stopped ==> c.stopMayFail)
    case StartNewCluster(started) => l.phase.Booting?
    case SeeTarget => l.phase.Waiting? && s.nodes[l.phase.target].db == Available
    case GiveUpWaiting(started) => l.phase.Waiting?
    case ClearAndStart(cleared, started) => l.phase.Clearing?
  }

  ghost function Acted(c: Config, s: State, i: nat, a: Action): (l': Local)
    requires WellFormed(c, s) && i < |s.nodes| && ActionEnabled(c, s, i, a)
    ensures PhaseFits(c, l'.phase)
    ensures l'.seqno == s.nodes[i].seqno
  {
    var l := s.nodes[i];
    match a
    case Begin => l.(phase := Probing([]))
    case Probe(up) => l.(phase := Probing(l.phase.seen + [up]))
    case EndRound => l.(phase := Idle)
    case FindPeer(target) => l.(phase := CoolingDown(target))
    case Collect => l.(phase := Collecting(FreshView(|c.servers|)))
    case EndCoolDown => l.(phase := Rejoining(l.phase.target))
    case Deliver(m) => l.(phase := Collecting(Record(c.Ips(), l.phase.view, m)))
    case Elect(winner) =>
      l.(phase := if c.servers[winner].hostname == c.servers[i].hostname then Elected else Rejoining(winner))
    case ForceStop(stopped) =>
      // an inactive service is left alone, and so is a database of an elected node that is up by now
      if l.db == Inactive || (l.phase.Elected? && l.db == Available) then l.(phase := Idle)
      else l.(phase := if l.phase.Elected? then Booting else Waiting(l.phase.target),
              db := if stopped then Inactive else l.db)
    case StartNewCluster(started) => Started(l, started, true).(phase := Idle)
    case SeeTarget => l.(phase := Clearing)
    case GiveUpWaiting(started) => Started(l, started, false).(phase := Idle)
    case ClearAndStart(cleared, started) =>
      if !cleared then l.(phase := Idle)
      else if l.db == Available then l.(phase := Idle, hasData := false, db := Active)
      else Started(l, started, false).(phase := Idle, hasData := false)
  }

  /** Starting a service that runs already changes nothing. */
  ghost function Started(l: Local, started: bool, asNewCluster: bool): Local
  {
    if l.db == Inactive && started then l.(db := Active, newCluster := asNewCluster) else l
  }

  ghost predicate PeerUp(s: State, i: nat)
  {
    exists k :: 0 <= k < |s.nodes| && k != i && s.nodes[k].db == Available
  }

  ghost predicate EventEnabled(c: Config, s: State, i: nat, e: Event)
    requires WellFormed(c, s) && i < |s.nodes|
  {
    var l := s.nodes[i];
    match e
    case Serve => l.db == Active && l.hasData && (c.loneServes || l.newCluster || PeerUp(s, i))
    case Degrade => l.db == Available
    case Die => l.db == Active
    case OperatorStart => l.db == Inactive && !HoldsDown(l.phase)
    case Sync(donor) => donor < |s.nodes| && l.db == Active && s.nodes[donor].db == Available
    case Commit(number) => number in c.numbers[i]
  }

  ghost function Happened(l: Local, e: Event): (l': Local)
    ensures l'.phase == l.phase
  {
    match e
    case Serve => l.(db := Available)
    case Degrade => l.(db := Active)
    case Die => l.(db := Inactive)
    case OperatorStart => l.(db := Active, newCluster := false)
    case Sync(donor) => l.(hasData := true)
    case Commit(number) => l.(seqno := number)
  }

  ghost predicate Enabled(c: Config, s: State, t: Step)
    requires WellFormed(c, s)
  {
    match t
    case Act(i, a) => i < |s.nodes| && ActionEnabled(c, s, i, a)
    case Happen(i, e) => i < |s.nodes| && EventEnabled(c, s, i, e)
    case Report(i) => i < |s.nodes|
    case Stray(m) => m.from !in c.Ips()
  }

  ghost function Apply(c: Config, s: State, t: Step): (s': State)
    requires WellFormed(c, s) && Enabled(c, s, t)
    ensures WellFormed(c, s')
  {
    match t
    case Act(i, a) => s.(nodes := s.nodes[i := Acted(c, s, i, a)])
    case Happen(i, e) => s.(nodes := s.nodes[i := Happened(s.nodes[i], e)])
    case Report(i) => s.(net := s.net + {Message(c.servers[i].ip, Some(s.nodes[i].seqno))})
    case Stray(m) => s.(net := s.net + {m})
  }

  // ---------- runs ----------

  /** `steps` can be taken one after the other from `s`. */
  ghost predicate Runs(c: Config, s: State, steps: seq<Step>)
    requires WellFormed(c, s)
    decreases |steps|
  {
    steps == [] || (Enabled(c, s, steps[0]) && Runs(c, Apply(c, s, steps[0]), steps[1..]))
  }

  ghost function After(c: Config, s: State, steps: seq<Step>): (s': State)
    requires WellFormed(c, s) && Runs(c, s, steps)
    ensures WellFormed(c, s')
    decreases |steps|
  {
    if steps == [] then s else After(c, Apply(c, s, steps[0]), steps[1..])
  }

  lemma {:induction false} RunsConcat(c: Config, s: State, a: seq<Step>, b: seq<Step>)
    requires WellFormed(c, s) && Runs(c, s, a) && Runs(c, After(c, s, a), b)
    ensures Runs(c, s, a + b) && After(c, s, a + b) == After(c, After(c, s, a), b)
    decreases |a|
  {
    if a == [] {
      assert a + b == b;
    } else {
      RunsConcat(c, Apply(c, s, a[0]), a[1..], b);
      assert (a + b)[1..] == a[1..] + b;
    }
  }

  ghost predicate FindsPeer(t: Step)
  {
    t.Act? && t.a.FindPeer?
  }

  /** The steps go from `s` to `s'`; if `blind`, without any node finding a peer up. */
  ghost predicate Route(c: Config, s: State, steps: seq<Step>, s': State, blind: bool)
    requires WellFormed(c, s)
  {
    Runs(c, s, steps) && After(c, s, steps) == s' && (blind ==> forall t :: t in steps ==> !FindsPeer(t))
  }

  ghost predicate Leads(c: Config, s: State, s': State, blind: bool)
    requires WellFormed(c, s)
  {
    exists steps :: Route(c, s, steps, s', blind)
  }

  lemma LeadsNowhere(c: Config, s: State, blind: bool)
    requires WellFormed(c, s)
    ensures Leads(c, s, s, blind)
  {
    assert Route(c, s, [], s, blind);
  }

  lemma LeadsOn(c: Config, s0: State, s: State, t: Step, blind: bool) returns (s': State)
    requires WellFormed(c, s0) && WellFormed(c, s) && Leads(c, s0, s, blind) && Enabled(c, s, t)
    requires blind ==> !FindsPeer(t)
    ensures s' == Apply(c, s, t) && Leads(c, s0, s', blind)
  {
    s' := Apply(c, s, t);
    var steps :| Route(c, s0, steps, s, blind);
    assert Runs(c, s', []) && Runs(c, s, [t]);
    RunsConcat(c, s0, steps, [t]);
    assert Route(c, s0, steps + [t], s', blind);
  }

  /** A database with data comes up beside a peer that is up. */
  lemma ServeBeside(c: Config, s0: State, s: State, i: nat, k: nat, blind: bool) returns (s': State)
    requires WellFormed(c, s0) && WellFormed(c, s) && Leads(c, s0, s, blind)
    requires i < |s.nodes| && k < |s.nodes| && i != k && s.nodes[k].db == Available
    requires s.nodes[i].db == Active && s.nodes[i].hasData
    ensures s' == s.(nodes := s.nodes[i := s.nodes[i].(db := Available)]) && WellFormed(c, s') && Leads(c, s0, s', blind)
  {
    assert PeerUp(s, i);
    s' := LeadsOn(c, s0, s, Happen(i, Serve), blind);
  }

  /** `seen` is what a full round of probes finds when only `j` answers (nobody, if `j` is no server). */
  ghost predicate OnlySees(seen: seq<bool>, j: nat)
  {
    forall k :: 0 <= k < |seen| ==> seen[k] == (k == j)
  }

  lemma {:induction false} ProbeAll(c: Config, s0: State, s: State, i: nat, j: nat, blind: bool) returns (s': State, seen: seq<bool>)
    requires WellFormed(c, s0) && WellFormed(c, s) && Leads(c, s0, s, blind)
    requires i < |c.servers| && (j < |c.servers| ==> s.nodes[j].db == Available)
    requires s.nodes[i].phase.Probing? && OnlySees(s.nodes[i].phase.seen, j)
    ensures |seen| == |c.servers| && OnlySees(seen, j)
    ensures s' == s.(nodes := s.nodes[i := s.nodes[i].(phase := Probing(seen))])
    ensures WellFormed(c, s') && Leads(c, s0, s', blind)
    decreases |c.servers| - |s.nodes[i].phase.seen|
  {
    var n := |s.nodes[i].phase.seen|;
    if n == |c.servers| {
      s', seen := s, s.nodes[i].phase.seen;
    } else {
      var s1 := LeadsOn(c, s0, s, Act(i, Probe(n == j)), blind);
      s', seen := ProbeAll(c, s0, s1, i, j, blind);
    }
  }

  /** Node `i`, whose own database is not up, sees only that of `j` and decides to rejoin it. */
  lemma DecideToRejoin(c: Config, s0: State, s: State, i: nat, j: nat) returns (s': State)
    requires WellFormed(c, s0) && WellFormed(c, s) && Leads(c, s0, s, false)
    requires i < |c.servers| && j < |c.servers| && i != j
    requires s.nodes[i].phase.Idle? && s.nodes[i].db != Available && s.nodes[j].db == Available
    ensures s' == s.(nodes := s.nodes[i := s.nodes[i].(phase := Rejoining(j))]) && WellFormed(c, s') && Leads(c, s0, s', false)
  {
    var s1 := LeadsOn(c, s0, s, Act(i, Begin), false);
    var s2, seen := ProbeAll(c, s0, s1, i, j, false);
    var s3 := LeadsOn(c, s0, s2, Act(i, FindPeer(j)), false);
    s' := LeadsOn(c, s0, s3, Act(i, EndCoolDown), false);
  }
}
