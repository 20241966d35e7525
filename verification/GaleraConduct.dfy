/** What a decision loop does to its own database, and when it leaves it alone. */
module GaleraConduct {
  import opened GaleraNodes
  import opened GaleraProtocol

  // ---------- a database that is up ----------

  /** In every state of the run the database of node `i` is up. */
  ghost predicate StaysUp(c: Config, s: State, steps: seq<Step>, i: nat)
    requires WellFormed(c, s) && Runs(c, s, steps) && i < |s.nodes|
    decreases |steps|
  {
    s.nodes[i].db == Available && (steps != [] ==> StaysUp(c, Apply(c, s, steps[0]), steps[1..], i))
  }

  /** Nothing in this phase makes a node stop a database that is up. */
  ghost predicate Harmless(p: Phase)
  {
    p.Idle? || p.Probing? || p.CoolingDown? || p.Elected?
  }

  lemma UpStepIsHarmless(c: Config, s: State, t: Step, i: nat)
    requires WellFormed(c, s) && Enabled(c, s, t) && i < |s.nodes| && Harmless(s.nodes[i].phase) && s.nodes[i].db == Available
    ensures Harmless(Apply(c, s, t).nodes[i].phase) && (s.nodes[i].hasData ==> Apply(c, s, t).nodes[i].hasData)
    ensures Apply(c, s, t).nodes[i].db == Available || t == Happen(i, Degrade)
  {
  }

  /** A node between rounds, probing, cooling down or elected leaves a database alone that is up and stays so: it
      neither stops it nor erases its data, over any run. */
  lemma {:induction false} UpNodesAreLeftAlone(c: Config, s: State, steps: seq<Step>, i: nat)
    requires WellFormed(c, s) && Runs(c, s, steps) && i < |s.nodes| && StaysUp(c, s, steps, i) && Harmless(s.nodes[i].phase)
    ensures Harmless(After(c, s, steps).nodes[i].phase)
    ensures s.nodes[i].hasData ==> After(c, s, steps).nodes[i].hasData
    decreases |steps|
  {
    if steps != [] {
      UpStepIsHarmless(c, s, steps[0], i);
      UpNodesAreLeftAlone(c, Apply(c, s, steps[0]), steps[1..], i);
    }
  }

  // ---------- a database that was stopped by its operator ----------

  ghost predicate InMaintenance(l: Local)
  {
    l.db == Inactive && !HoldsDown(l.phase)
  }

  /** A service that is down by no act of the loop is not started by it: over any run without a start by the
      operator it stays down, with the data it has. */
  lemma {:induction false} MaintenanceIsRespected(c: Config, s: State, steps: seq<Step>, i: nat)
    requires WellFormed(c, s) && Runs(c, s, steps) && i < |s.nodes| && InMaintenance(s.nodes[i])
    requires Happen(i, OperatorStart) !in steps
    ensures InMaintenance(After(c, s, steps).nodes[i]) && After(c, s, steps).nodes[i].hasData == s.nodes[i].hasData
    decreases |steps|
  {
    if steps != [] {
      assert steps[0] in steps;
      MaintenanceIsRespected(c, Apply(c, s, steps[0]), steps[1..], i);
    }
  }

  // ---------- which workflow a round takes ----------

  ghost predicate SeesPeer(c: Config, i: nat, seen: seq<bool>, k: nat)
    requires c.Valid() && i < |c.servers| == |seen|
  {
    k < |seen| && k != i && seen[k]
  }

  ghost predicate SeesFirst(c: Config, i: nat, seen: seq<bool>, p: nat)
    requires c.Valid() && i < |c.servers| == |seen|
  {
    SeesPeer(c, i, seen, p) && forall j: nat :: j < p ==> !SeesPeer(c, i, seen, j)
  }

  lemma FirstPeerIffSeenFirst(c: Config, i: nat, seen: seq<bool>, p: nat)
    requires c.Valid() && i < |c.servers| == |seen|
    ensures IsFirstAvailablePeer(c.Hosts(), seen, c.servers[i].hostname, p) <==> SeesFirst(c, i, seen, p)
  {
    forall k: nat | k < |seen|
      ensures c.Hosts()[k] != c.servers[i].hostname <==> k != i
    {
      assert c.Hosts()[k] == c.servers[k].hostname;
    }
    if IsFirstAvailablePeer(c.Hosts(), seen, c.servers[i].hostname, p) {
      forall j: nat | j < p
        ensures !SeesPeer(c, i, seen, j)
      {
        assert j != i ==> c.Hosts()[j] != c.servers[i].hostname;
      }
    } else if SeesFirst(c, i, seen, p) {
      assert forall j: nat :: j < p && c.Hosts()[j] != c.servers[i].hostname ==> !SeesPeer(c, i, seen, j);
    }
  }

  lemma {:induction false} SomeoneSeenFirst(c: Config, i: nat, seen: seq<bool>, k: nat) returns (p: nat)
    requires c.Valid() && i < |c.servers| == |seen| && SeesPeer(c, i, seen, k)
    ensures SeesFirst(c, i, seen, p)
    decreases k
  {
    if j: nat :| j < k && SeesPeer(c, i, seen, j) {
      p := SomeoneSeenFirst(c, i, seen, j);
    } else {
      p := k;
    }
  }

  /** A round that finds its own database down collects numbers exactly when it has seen no peer up, and otherwise
      turns to the first peer that it has seen up. */
  lemma CollectsIffNobodySeen(c: Config, s: State, i: nat)
    requires WellFormed(c, s) && i < |s.nodes| && MayIntervene(c, s.nodes[i])
    ensures var seen := s.nodes[i].phase.seen;
            && (ActionEnabled(c, s, i, Collect) <==> forall k: nat :: !SeesPeer(c, i, seen, k))
            && (forall k: nat :: ActionEnabled(c, s, i, FindPeer(k)) <==> SeesFirst(c, i, seen, k))
  {
    var seen := s.nodes[i].phase.seen;
    forall p: nat
      ensures IsFirstAvailablePeer(c.Hosts(), seen, c.servers[i].hostname, p) <==> SeesFirst(c, i, seen, p)
    {
      FirstPeerIffSeenFirst(c, i, seen, p);
    }
    if k: nat :| SeesPeer(c, i, seen, k) {
      var p := SomeoneSeenFirst(c, i, seen, k);
    }
  }

  // ---------- a wait that is in vain ----------

  /** A node that has stopped and waited for nothing can have its service back, with its data, and not as a new
      cluster. */
  lemma WaiterGetsServiceBack(c: Config, s: State, i: nat) returns (s': State)
    requires WellFormed(c, s) && i < |s.nodes| && s.nodes[i].phase.Waiting? && s.nodes[i].db == Inactive
    ensures WellFormed(c, s') && Leads(c, s, s', true)
    ensures s'.nodes[i] == s.nodes[i].(phase := Idle, db := Active, newCluster := false)
  {
    LeadsNowhere(c, s, true);
    s' := LeadsOn(c, s, s, Act(i, GiveUpWaiting(true)), true);
  }

  // ---------- what changes a service ----------

  /** Data are lost only to an erasure that succeeds; a service is started only by its operator or at the end of
      one of the three workflows, and stopped only by dying or by a stop that succeeds. */
  lemma ServiceChangesOnlyBy(c: Config, s: State, t: Step, i: nat)
    requires WellFormed(c, s) && Enabled(c, s, t) && i < |s.nodes|
    ensures var l, l' := s.nodes[i], Apply(c, s, t).nodes[i];
            && (l.hasData && !l'.hasData ==> t == Act(i, ClearAndStart(true, true)) || t == Act(i, ClearAndStart(true, false)))
            && (l.db == Inactive && l'.db != Inactive ==>
                  || t == Happen(i, OperatorStart) || t == Act(i, StartNewCluster(true))
                  || t == Act(i, GiveUpWaiting(true)) || t == Act(i, ClearAndStart(true, true)))
            && (l.db != Inactive && l'.db == Inactive ==> t == Happen(i, Die) || t == Act(i, ForceStop(true)))
  {
  }

  /** A round that probes, cools down or collects can end, with everything as it was. */
  lemma RoundCanEnd(c: Config, s: State, i: nat) returns (s': State)
    requires WellFormed(c, s) && i < |s.nodes|
    requires s.nodes[i].phase.CoolingDown? || s.nodes[i].phase.Collecting? || s.nodes[i].phase == Probing([])
    ensures Leads(c, s, s', true) && s' == s.(nodes := s.nodes[i := s.nodes[i].(phase := Idle)])
  {
    LeadsNowhere(c, s, true);
    var s1 := s;
    if s.nodes[i].phase.Probing? {
      var seen;
      s1, seen := ProbeAll(c, s, s, i, |c.servers|, true);
    }
    s' := LeadsOn(c, s, s1, Act(i, EndRound), true);
  }
}
