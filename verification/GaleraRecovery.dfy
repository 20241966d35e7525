/** When can a cluster whose databases are down come back, if a database comes up only beside a peer that is
    up or after being started as a new cluster? */
module GaleraRecovery {
  import opened GaleraNodes
  import opened GaleraProtocol
  import GaleraAgreement

  ghost predicate Recovered(l: Local)
  {
    l.phase.Idle? && l.db == Available && l.hasData
  }

  ghost predicate CanRecover(c: Config, s: State)
    requires WellFormed(c, s)
  {
    exists s' :: Leads(c, s, s', false) && |s'.nodes| == |s.nodes| && forall i :: 0 <= i < |s'.nodes| ==> Recovered(s'.nodes[i])
  }

  /** The service was started as a new cluster and still runs. */
  ghost predicate StandsAlone(l: Local)
  {
    l.db == Active && l.newCluster
  }

  // ---------- nobody comes up by itself ----------

  ghost predicate NoneUp(s: State)
  {
    forall i :: 0 <= i < |s.nodes| ==> s.nodes[i].db != Available
  }

  /** Without a bootstrap step, a cluster that is down stays down. */
  lemma {:induction false} DownWithoutBootstrap(c: Config, s: State, steps: seq<Step>)
    requires WellFormed(c, s) && !c.loneServes && Runs(c, s, steps)
    requires NoneUp(s) && forall i :: 0 <= i < |s.nodes| ==> !StandsAlone(s.nodes[i])
    requires forall k :: 0 <= k < |steps| ==> !(steps[k].Act? && steps[k].a.StartNewCluster?)
    ensures NoneUp(After(c, s, steps))
    decreases |steps|
  {
    if steps != [] {
      assert steps[0] in steps;
      DownWithoutBootstrap(c, Apply(c, s, steps[0]), steps[1..]);
    }
  }

  // ---------- a cluster that cannot come back ----------

  /** Node `i` can be the first to come up: it has the data, and it is up, runs as a new cluster already, or
      can be elected to start one. */
  ghost predicate CanLead(c: Config, s: State, i: nat)
    requires WellFormed(c, s)
  {
    && i < |s.nodes| && s.nodes[i].hasData
    && (s.nodes[i].db == Available || StandsAlone(s.nodes[i]) || (|c.servers| > 1 && GaleraAgreement.Electable(c, i)))
  }

  ghost predicate StuckNode(c: Config, l: Local, i: nat)
    requires c.Valid()
  {
    && l.db != Available
    && (l.hasData ==> !StandsAlone(l) && (|c.servers| > 1 ==> !GaleraAgreement.Electable(c, i)))
    && (|c.servers| <= 1 ==> l.phase.Idle? || l.phase.Probing?)
  }

  ghost predicate Stuck(c: Config, s: State)
  {
    GaleraAgreement.Inv(c, s) && forall i: nat :: i < |s.nodes| ==> StuckNode(c, s.nodes[i], i)
  }

  lemma NodeStaysStuck(c: Config, s: State, i: nat, a: Action)
    requires Stuck(c, s) && i < |s.nodes| && ActionEnabled(c, s, i, a)
    ensures StuckNode(c, Acted(c, s, i, a), i)
  {
    assert StuckNode(c, s.nodes[i], i);
    if a.StartNewCluster? {
      assert GaleraAgreement.Bootstraps(s, i);
    }
  }

  lemma EventLeavesStuck(c: Config, s: State, i: nat, e: Event)
    requires Stuck(c, s) && !c.loneServes && i < |s.nodes| && EventEnabled(c, s, i, e)
    ensures StuckNode(c, Happened(s.nodes[i], e), i)
  {
    assert forall k: nat :: k < |s.nodes| ==> StuckNode(c, s.nodes[k], k);
  }

  lemma StepStaysStuck(c: Config, s: State, t: Step)
    requires Stuck(c, s) && !c.loneServes && Enabled(c, s, t)
    ensures Stuck(c, Apply(c, s, t))
  {
    GaleraAgreement.StepKeepsInv(c, s, t);
    match t
    case Act(i, a) => NodeStaysStuck(c, s, i, a);
    case Happen(i, e) => EventLeavesStuck(c, s, i, e);
    case _ =>
  }

  lemma {:induction false} RunStaysStuck(c: Config, s: State, steps: seq<Step>)
    requires Stuck(c, s) && !c.loneServes && Runs(c, s, steps)
    ensures Stuck(c, After(c, s, steps))
    decreases |steps|
  {
    if steps != [] {
      StepStaysStuck(c, s, steps[0]);
      RunStaysStuck(c, Apply(c, s, steps[0]), steps[1..]);
    }
  }

  // ---------- a cluster that can ----------

  /** Between rounds; what is up has the data. */
  ghost predicate Rested(s: State)
  {
    forall i :: 0 <= i < |s.nodes| ==> InitNode(s.nodes[i])
  }

  /** The service is running, started by an operator if need be. */
  lemma Activate(c: Config, s0: State, s: State, k: nat, blind: bool) returns (s': State)
    requires WellFormed(c, s0) && WellFormed(c, s) && Leads(c, s0, s, blind)
    requires k < |s.nodes| && s.nodes[k].phase.Idle? && s.nodes[k].db != Available
    ensures WellFormed(c, s') && Leads(c, s0, s', blind) && s'.nodes[k].db == Active
    ensures s' == s.(nodes := s.nodes[k := s.nodes[k].(db := Active, newCluster := s'.nodes[k].newCluster)])
  {
    if s.nodes[k].db == Inactive {
      s' := LeadsOn(c, s0, s, Happen(k, OperatorStart), blind);
    } else {
      s' := s;
    }
  }

  /** An electable node hears the numbers that put it first and starts a new cluster. */
  lemma Bootstrap(c: Config, s0: State, s: State, w: nat, blind: bool) returns (s': State)
    requires WellFormed(c, s0) && WellFormed(c, s) && Leads(c, s0, s, blind) && |c.servers| > 1 && Rested(s)
    requires GaleraAgreement.Electable(c, w) && w < |s.nodes| && s.nodes[w].hasData && s.nodes[w].db == Active
    ensures WellFormed(c, s') && Leads(c, s0, s', blind) && Rested(s') && Recovered(s'.nodes[w])
  {
    var f := GaleraAgreement.WinningNumbers(c, w);
    var s1 := GaleraAgreement.StartCollecting(c, s0, s, w, blind);
    var s2 := GaleraAgreement.SendAll(c, s0, s1, f, 0, blind);
    var s3 := GaleraAgreement.HearAndElect(c, s0, s2, w, f, blind);
    s' := ServeAsNewCluster(c, s0, s3, w, blind);
  }

  lemma ServeAsNewCluster(c: Config, s0: State, s: State, w: nat, blind: bool) returns (s': State)
    requires WellFormed(c, s0) && WellFormed(c, s) && Leads(c, s0, s, blind) && w < |s.nodes|
    requires s.nodes[w].phase.Elected? && s.nodes[w].hasData && s.nodes[w].db == Active
    ensures s' == s.(nodes := s.nodes[w := s.nodes[w].(phase := Idle, db := Available, newCluster := true)])
    ensures WellFormed(c, s') && Leads(c, s0, s', blind)
  {
    var s1 := LeadsOn(c, s0, s, Act(w, ForceStop(true)), blind);
    var s2 := LeadsOn(c, s0, s1, Act(w, StartNewCluster(true)), blind);
    s' := LeadsOn(c, s0, s2, Happen(w, Serve), blind);
  }

  /** A running node sees the recovered node, erases its data and gets it back from there. */
  lemma Rejoin(c: Config, s0: State, s: State, w: nat, k: nat) returns (s': State)
    requires WellFormed(c, s0) && WellFormed(c, s) && Leads(c, s0, s, false)
    requires w < |s.nodes| && k < |s.nodes| && k != w && Recovered(s.nodes[w])
    requires s.nodes[k].phase.Idle? && s.nodes[k].db == Active
    ensures WellFormed(c, s') && Leads(c, s0, s', false) && |s'.nodes| == |s.nodes| && Recovered(s'.nodes[k])
    ensures forall i :: 0 <= i < |s.nodes| && i != k ==> s'.nodes[i] == s.nodes[i]
  {
    var s1 := DecideToRejoin(c, s0, s, k, w);
    var s2 := LeadsOn(c, s0, s1, Act(k, ForceStop(true)), false);
    s' := EraseAndSync(c, s0, s2, w, k, false);
  }

  lemma EraseAndSync(c: Config, s0: State, s: State, w: nat, k: nat, blind: bool) returns (s': State)
    requires WellFormed(c, s0) && WellFormed(c, s) && Leads(c, s0, s, blind)
    requires w < |s.nodes| && k < |s.nodes| && k != w && s.nodes[w].db == Available
    requires s.nodes[k].phase == Waiting(w) && s.nodes[k].db == Inactive
    ensures WellFormed(c, s') && Leads(c, s0, s', blind) && |s'.nodes| == |s.nodes| && Recovered(s'.nodes[k])
    ensures forall i :: 0 <= i < |s.nodes| && i != k ==> s'.nodes[i] == s.nodes[i]
  {
    var s1 := LeadsOn(c, s0, s, Act(k, SeeTarget), blind);
    var s2 := LeadsOn(c, s0, s1, Act(k, ClearAndStart(true, true)), blind);
    var s3 := LeadsOn(c, s0, s2, Happen(k, Sync(w)), blind);
    s' := ServeBeside(c, s0, s3, k, w, blind);
  }

  /** Once `w` is back, the nodes from `m` on follow. */
  lemma {:induction false} RejoinFrom(c: Config, s0: State, s: State, w: nat, m: nat) returns (s': State)
    requires WellFormed(c, s0) && WellFormed(c, s) && Leads(c, s0, s, false) && Rested(s)
    requires w < |s.nodes| && Recovered(s.nodes[w]) && m <= |s.nodes|
    requires forall i :: 0 <= i < m ==> Recovered(s.nodes[i])
    ensures WellFormed(c, s') && Leads(c, s0, s', false) && forall i :: 0 <= i < |s'.nodes| ==> Recovered(s'.nodes[i])
    decreases |s.nodes| - m
  {
    if m == |s.nodes| {
      s' := s;
    } else if s.nodes[m].db == Available {
      s' := RejoinFrom(c, s0, s, w, m + 1);
    } else {
      var s1 := Activate(c, s0, s, m, false);
      var s2 := Rejoin(c, s0, s1, w, m);
      s' := RejoinFrom(c, s0, s2, w, m + 1);
    }
  }

  /** The node that can lead comes up. */
  lemma LeaderComesUp(c: Config, s: State, w: nat) returns (s': State)
    requires Init(c, s) && CanLead(c, s, w)
    ensures WellFormed(c, s') && Leads(c, s, s', false) && Rested(s') && |s'.nodes| == |s.nodes| && Recovered(s'.nodes[w])
  {
    LeadsNowhere(c, s, false);
    if s.nodes[w].db == Available {
      s' := s;
    } else if StandsAlone(s.nodes[w]) {
      s' := LeadsOn(c, s, s, Happen(w, Serve), false);
    } else {
      var s1 := Activate(c, s, s, w, false);
      s' := Bootstrap(c, s, s1, w, false);
    }
  }

  /** From any initial state, some run brings every node back with the data if and only if some node that
      has the data is up, runs as a new cluster already, or can be elected to start one. */
  lemma RecoversIffHolderCanLead(c: Config, s: State)
    requires Init(c, s) && !c.loneServes && |c.servers| > 0
    ensures CanRecover(c, s) <==> exists w: nat :: CanLead(c, s, w)
  {
    if w: nat :| CanLead(c, s, w) {
      var s1 := LeaderComesUp(c, s, w);
      var s' := RejoinFrom(c, s, s1, w, 0);
      assert |s'.nodes| == |s.nodes|;
    } else {
      forall i: nat | i < |s.nodes|
        ensures StuckNode(c, s.nodes[i], i)
      {
        assert !CanLead(c, s, i);
      }
      forall s' | Leads(c, s, s', false)
        ensures |s'.nodes| == |s.nodes| ==> !Recovered(s'.nodes[0])
      {
        var steps :| Route(c, s, steps, s', false);
        RunStaysStuck(c, s, steps);
        assert |s'.nodes| > 0 ==> StuckNode(c, s'.nodes[0], 0);
      }
    }
  }

  /** With fixed numbers and all databases down, the cluster can come back if and only if the node those
      numbers choose has the data. */
  lemma RecoversIffChosenHasData(c: Config, fixed: seq<int>, s: State, w: nat)
    requires Init(c, s) && !c.loneServes && |fixed| == |c.servers| > 1
    requires forall k :: 0 <= k < |fixed| ==> c.numbers[k] == iset{fixed[k]}
    requires NoneUp(s) && (forall i :: 0 <= i < |s.nodes| ==> !StandsAlone(s.nodes[i])) && Chosen(fixed, w)
    ensures CanRecover(c, s) <==> s.nodes[w].hasData
  {
    RecoversIffHolderCanLead(c, s);
    GaleraAgreement.ChosenIsElectable(c, fixed, w);
    forall i: nat | GaleraAgreement.Electable(c, i)
      ensures i == w
    {
      var f := GaleraAgreement.WinningNumbers(c, i);
      assert f == fixed;
      FirstHighestUnique(fixed, i, w);
    }
    assert s.nodes[w].hasData ==> CanLead(c, s, w);
  }
}
