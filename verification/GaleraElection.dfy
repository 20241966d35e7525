/** What becomes of the nodes that lose the election: they wait for the node that has won it, and for no other. */
module GaleraElection {
  import opened GaleraNodes
  import opened GaleraProtocol
  import opened GaleraAgreement
  import opened GaleraRecovery

  // ---------- whom a node waits for ----------

  ghost predicate Serves(t: Step)
  {
    t.Happen? && t.e.Serve?
  }

  /** The node has seen nobody up, and if it is to rejoin another, it is an electable one. */
  ghost predicate AwaitsElectable(c: Config, l: Local, i: nat)
    requires c.Valid()
  {
    && l.db != Available && !l.phase.CoolingDown? && !l.phase.Clearing?
    && (l.phase.Probing? ==> forall k :: 0 <= k < |l.phase.seen| ==> !l.phase.seen[k])
    && (l.phase.Rejoining? || l.phase.Waiting? ==> l.phase.target != i && Electable(c, l.phase.target))
  }

  ghost predicate AllAwait(c: Config, s: State)
  {
    GaleraAgreement.Inv(c, s) && forall i: nat :: i < |s.nodes| ==> AwaitsElectable(c, s.nodes[i], i)
  }

  lemma ActionAwaits(c: Config, s: State, i: nat, a: Action)
    requires AllAwait(c, s) && i < |s.nodes| && ActionEnabled(c, s, i, a)
    ensures AwaitsElectable(c, Acted(c, s, i, a), i)
  {
    forall k: nat | k < |s.nodes|
      ensures s.nodes[k].db != Available
    {
      assert AwaitsElectable(c, s.nodes[k], k);
    }
    assert AwaitsElectable(c, s.nodes[i], i);
    match a
    case Elect(winner) => ChosenIsElectable(c, s.nodes[i].phase.view, winner);
    case _ =>
  }

  lemma StepAwaits(c: Config, s: State, t: Step)
    requires AllAwait(c, s) && Enabled(c, s, t) && !Serves(t)
    ensures AllAwait(c, Apply(c, s, t))
  {
    GaleraAgreement.StepKeepsInv(c, s, t);
    match t
    case Act(i, a) => ActionAwaits(c, s, i, a);
    case Happen(i, e) => assert AwaitsElectable(c, s.nodes[i], i);
    case _ =>
  }

  lemma {:induction false} RunAwaits(c: Config, s: State, steps: seq<Step>)
    requires AllAwait(c, s) && Runs(c, s, steps) && forall t :: t in steps ==> !Serves(t)
    ensures AllAwait(c, After(c, s, steps))
    decreases |steps|
  {
    if steps != [] {
      assert steps[0] in steps;
      StepAwaits(c, s, steps[0]);
      RunAwaits(c, Apply(c, s, steps[0]), steps[1..]);
    }
  }

  /** Over every run in which no database comes up, a node that is to rejoin another, or waits for it, does so
      for another node that is electable. */
  lemma LosersAwaitElectable(c: Config, s: State, steps: seq<Step>, i: nat)
    requires Init(c, s) && NoneUp(s) && Runs(c, s, steps) && (forall t :: t in steps ==> !Serves(t)) && i < |s.nodes|
    ensures var p := After(c, s, steps).nodes[i].phase;
            p.Rejoining? || p.Waiting? ==> p.target != i && Electable(c, p.target)
  {
    RunAwaits(c, s, steps);
    assert AwaitsElectable(c, After(c, s, steps).nodes[i], i);
  }

  /** With fixed numbers that is the node the numbers choose. */
  lemma LosersAwaitChosen(c: Config, fixed: seq<int>, s: State, steps: seq<Step>, i: nat, w: nat)
    requires Init(c, s) && NoneUp(s) && Runs(c, s, steps) && (forall t :: t in steps ==> !Serves(t)) && i < |s.nodes|
    requires |fixed| == |c.servers| && (forall k :: 0 <= k < |fixed| ==> c.numbers[k] == iset{fixed[k]}) && Chosen(fixed, w)
    ensures var p := After(c, s, steps).nodes[i].phase;
            p.Rejoining? || p.Waiting? ==> p.target == w != i
  {
    var p := After(c, s, steps).nodes[i].phase;
    LosersAwaitElectable(c, s, steps, i);
    if p.Rejoining? || p.Waiting? {
      var f := WinningNumbers(c, p.target);
      assert f == fixed;
      FirstHighestUnique(fixed, p.target, w);
    }
  }

  // ---------- how the losers come back ----------

  ghost function Waiter(l: Local, w: nat): Local
  {
    l.(phase := Waiting(w), db := Inactive)
  }

  /** A running node hears numbers that put another first, stops and waits for it. */
  lemma LoserWaits(c: Config, s0: State, s: State, i: nat, f: seq<int>, w: nat) returns (s': State)
    requires WellFormed(c, s0) && WellFormed(c, s) && Leads(c, s0, s, true) && |c.servers| > 1
    requires AllSent(c, s, f) && Chosen(f, w) && i < |s.nodes| && i != w
    requires s.nodes[i].phase.Idle? && s.nodes[i].db == Active
    ensures s' == s.(nodes := s.nodes[i := Waiter(s.nodes[i], w)]) && WellFormed(c, s') && Leads(c, s0, s', true)
  {
    var s1 := StartCollecting(c, s0, s, i, true);
    assert f[..0] + FreshView(|f|) == FreshView(|f|);
    var s2 := DeliverAll(c, s0, s1, i, f, 0, true);
    var s3 := LeadsOn(c, s0, s2, Act(i, Elect(w)), true);
    s' := LeadsOn(c, s0, s3, Act(i, ForceStop(true)), true);
  }

  /** Every running node from `m` on that is not chosen comes to wait for the chosen one. */
  lemma {:induction false} LosersWait(c: Config, s0: State, s: State, f: seq<int>, w: nat, m: nat) returns (s': State)
    requires WellFormed(c, s0) && WellFormed(c, s) && Leads(c, s0, s, true) && |c.servers| > 1
    requires AllSent(c, s, f) && Chosen(f, w) && m <= |s.nodes|
    requires forall i :: m <= i < |s.nodes| && i != w ==> s.nodes[i].phase.Idle?
    ensures WellFormed(c, s') && Leads(c, s0, s', true)
    ensures forall i :: 0 <= i < |s.nodes| ==>
              s'.nodes[i] == if m <= i && i != w && s.nodes[i].db == Active then Waiter(s.nodes[i], w) else s.nodes[i]
    decreases |s.nodes| - m
  {
    if m == |s.nodes| {
      s' := s;
    } else if m == w || s.nodes[m].db != Active {
      s' := LosersWait(c, s0, s, f, w, m + 1);
    } else {
      var s1 := LoserWaits(c, s0, s, m, f, w);
      s' := LosersWait(c, s0, s1, f, w, m + 1);
    }
  }

  /** Every node from `m` on that waits for `w` erases its data and gets it back from there. */
  lemma {:induction false} WaitersReturn(c: Config, s0: State, s: State, w: nat, m: nat) returns (s': State)
    requires WellFormed(c, s0) && WellFormed(c, s) && Leads(c, s0, s, true)
    requires w < |s.nodes| && s.nodes[w].db == Available && !s.nodes[w].phase.Waiting? && m <= |s.nodes|
    requires forall i :: m <= i < |s.nodes| && s.nodes[i].phase.Waiting? ==> s.nodes[i].phase.target == w && s.nodes[i].db == Inactive
    ensures WellFormed(c, s') && Leads(c, s0, s', true)
    ensures forall i :: 0 <= i < |s.nodes| ==>
              if m <= i && s.nodes[i].phase.Waiting? then Recovered(s'.nodes[i]) else s'.nodes[i] == s.nodes[i]
    decreases |s.nodes| - m
  {
    if m == |s.nodes| {
      s' := s;
    } else if !s.nodes[m].phase.Waiting? {
      s' := WaitersReturn(c, s0, s, w, m + 1);
    } else {
      var s1 := EraseAndSync(c, s0, s, w, m, true);
      s' := WaitersReturn(c, s0, s1, w, m + 1);
    }
  }

  /** The electable node elects itself, and every other running node comes to wait for it. */
  lemma EveryoneElects(c: Config, s: State, w: nat) returns (s': State)
    requires Init(c, s) && |c.servers| > 1 && NoneUp(s) && Electable(c, w) && w < |s.nodes| && s.nodes[w].db == Active
    ensures WellFormed(c, s') && Leads(c, s, s', true)
    ensures s'.nodes[w] == s.nodes[w].(phase := Elected, seqno := s'.nodes[w].seqno)
    ensures forall i :: 0 <= i < |s.nodes| && i != w ==>
              var l := s.nodes[i].(seqno := s'.nodes[i].seqno); s'.nodes[i] == if l.db == Active then Waiter(l, w) else l
  {
    var f := WinningNumbers(c, w);
    LeadsNowhere(c, s, true);
    var s1 := StartCollecting(c, s, s, w, true);
    var s2 := SendAll(c, s, s1, f, 0, true);
    var s3 := HearAndElect(c, s, s2, w, f, true);
    s' := LosersWait(c, s, s3, f, w, 0);
  }

  /** From a state with nothing up, a run in which no node finds a peer up brings every other running node to
      wait for an electable one with the data, and on to have the data again. */
  lemma LosersReturnByElection(c: Config, s: State, w: nat) returns (s1: State, s2: State)
    requires Init(c, s) && |c.servers| > 1 && NoneUp(s)
    requires Electable(c, w) && w < |s.nodes| && s.nodes[w].db == Active && s.nodes[w].hasData
    ensures WellFormed(c, s1) && Leads(c, s, s1, true) && NoneUp(s1)
    ensures forall i :: 0 <= i < |s.nodes| && i != w && s.nodes[i].db == Active ==> s1.nodes[i].phase == Waiting(w)
    ensures WellFormed(c, s2) && Leads(c, s1, s2, true)
    ensures forall i :: 0 <= i < |s.nodes| && s.nodes[i].db == Active ==> Recovered(s2.nodes[i])
  {
    s1 := EveryoneElects(c, s, w);
    LeadsNowhere(c, s1, true);
    var s3 := ServeAsNewCluster(c, s1, s1, w, true);
    s2 := WaitersReturn(c, s1, s3, w, 0);
  }
}
