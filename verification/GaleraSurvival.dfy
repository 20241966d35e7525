/** Does some node always keep the cluster's data? */
module GaleraSurvival {
  import opened GaleraNodes
  import opened GaleraProtocol

  ghost predicate SomeNodeHasData(s: State)
  {
    exists w :: 0 <= w < |s.nodes| && s.nodes[w].hasData
  }

  /** Node `w` has the data and is not bound to erase it. */
  ghost predicate Keeper(s: State, w: nat)
  {
    w < |s.nodes| && s.nodes[w].hasData && !s.nodes[w].phase.Clearing?
  }

  ghost predicate NodeInv(l: Local)
  {
    && (l.db == Available ==> l.hasData)
    && (HoldsDown(l.phase) ==> l.db == Inactive)
  }

  ghost predicate Inv(c: Config, s: State)
  {
    && WellFormed(c, s)
    && (forall i :: 0 <= i < |s.nodes| ==> NodeInv(s.nodes[i]))
    && (exists w: nat :: Keeper(s, w))
  }

  lemma ActionKeepsNodeInv(c: Config, s: State, i: nat, a: Action)
    requires Inv(c, s) && !c.stopMayFail && i < |s.nodes| && ActionEnabled(c, s, i, a)
    ensures NodeInv(Acted(c, s, i, a))
    ensures !a.SeeTarget? && Keeper(s, i) ==> Acted(c, s, i, a).hasData && !Acted(c, s, i, a).phase.Clearing?
  {
    assert NodeInv(s.nodes[i]);
  }

  lemma EventKeepsNodeInv(c: Config, s: State, i: nat, e: Event)
    requires Inv(c, s) && i < |s.nodes| && EventEnabled(c, s, i, e)
    ensures NodeInv(Happened(s.nodes[i], e)) && (s.nodes[i].hasData ==> Happened(s.nodes[i], e).hasData)
  {
    assert NodeInv(s.nodes[i]);
  }

  /** When a node sees its target up, the target is a keeper beside it. */
  lemma TargetKeeps(c: Config, s: State, i: nat)
    requires Inv(c, s) && i < |s.nodes| && ActionEnabled(c, s, i, SeeTarget)
    ensures Keeper(Apply(c, s, Act(i, SeeTarget)), s.nodes[i].phase.target)
  {
    var w := s.nodes[i].phase.target;
    assert NodeInv(s.nodes[w]) && NodeInv(s.nodes[i]);
  }

  lemma StepKeepsInv(c: Config, s: State, t: Step)
    requires Inv(c, s) && !c.stopMayFail && Enabled(c, s, t)
    ensures Inv(c, Apply(c, s, t))
  {
    var s' := Apply(c, s, t);
    var w: nat :| Keeper(s, w);
    match t
    case Act(i, a) =>
      ActionKeepsNodeInv(c, s, i, a);
      if a.SeeTarget? {
        TargetKeeps(c, s, i);
      } else {
        assert Keeper(s', w);
      }
    case Happen(i, e) =>
      EventKeepsNodeInv(c, s, i, e);
      assert Keeper(s', w);
    case _ =>
      assert Keeper(s', w);
  }

  lemma {:induction false} RunKeepsInv(c: Config, s: State, steps: seq<Step>)
    requires Inv(c, s) && !c.stopMayFail && Runs(c, s, steps)
    ensures Inv(c, After(c, s, steps))
    decreases |steps|
  {
    if steps != [] {
      StepKeepsInv(c, s, steps[0]);
      RunKeepsInv(c, Apply(c, s, steps[0]), steps[1..]);
    }
  }

  /** Over every run that starts with the data somewhere, it stays somewhere. */
  ghost predicate DataAlwaysSurvives(c: Config)
  {
    forall s, steps :: Init(c, s) && SomeNodeHasData(s) && Runs(c, s, steps) ==> SomeNodeHasData(After(c, s, steps))
  }

  // ---------- a single server never acts ----------

  ghost predicate Passive(c: Config, s: State)
  {
    && WellFormed(c, s) && SomeNodeHasData(s)
    && (forall i :: 0 <= i < |s.nodes| ==> s.nodes[i].phase.Idle? || s.nodes[i].phase.Probing?)
  }

  lemma {:induction false} LoneServerStaysPassive(c: Config, s: State, steps: seq<Step>)
    requires |c.servers| <= 1 && Passive(c, s) && Runs(c, s, steps)
    ensures Passive(c, After(c, s, steps))
    decreases |steps|
  {
    if steps != [] {
      var s' := Apply(c, s, steps[0]);
      var w :| 0 <= w < |s.nodes| && s.nodes[w].hasData;
      assert s'.nodes[w].hasData;
      LoneServerStaysPassive(c, s', steps[1..]);
    }
  }

  // ---------- two servers whose databases refuse to stop ----------

  /** Node `i` sees only the database of `j`, fails to stop its own, and waits for `j`. */
  lemma WaitUnstopped(c: Config, s0: State, s: State, i: nat, j: nat) returns (s': State)
    requires c.stopMayFail && WellFormed(c, s0) && WellFormed(c, s) && Leads(c, s0, s, false)
    requires i < |c.servers| && j < |c.servers| && i != j && s.nodes[i].phase.Idle?
    requires s.nodes[i].db == Active && s.nodes[j].db == Available
    ensures s' == s.(nodes := s.nodes[i := s.nodes[i].(phase := Waiting(j))]) && WellFormed(c, s') && Leads(c, s0, s', false)
  {
    var s1 := DecideToRejoin(c, s0, s, i, j);
    s' := LeadsOn(c, s0, s1, Act(i, ForceStop(false)), false);
  }

  /** The first two servers hold the data, and the second is up; everyone else has none and is down. */
  ghost function Doomed(c: Config): (s: State)
    requires c.Valid() && |c.servers| >= 2
    ensures Init(c, s) && SomeNodeHasData(s)
    ensures forall i :: 0 <= i < |c.servers| ==>
              s.nodes[i].hasData == (i < 2) && s.nodes[i].db == if i == 0 then Active else if i == 1 then Available else Inactive
  {
    var n := |c.servers|;
    var s := State(seq(n, i requires 0 <= i < n =>
                     var x :| x in c.numbers[i];
                     Local(Idle, if i == 0 then Active else if i == 1 then Available else Inactive, false, i < 2, x)), {});
    assert s.nodes[0].hasData;
    s
  }

  /** When a stop can fail, both holders of the data can be up while each waits for the other... */
  lemma BothUpAndWaiting(c: Config) returns (s: State)
    requires c.Valid() && c.stopMayFail && |c.servers| >= 2
    ensures WellFormed(c, s) && Leads(c, Doomed(c), s, false)
    ensures s.nodes[0].phase == Waiting(1) && s.nodes[1].phase == Waiting(0)
    ensures s.nodes[0].db == s.nodes[1].db == Available
    ensures forall i :: 2 <= i < |c.servers| ==> !s.nodes[i].hasData
  {
    var s0 := Doomed(c);
    LeadsNowhere(c, s0, false);
    var s1 := WaitUnstopped(c, s0, s0, 0, 1);
    var s2 := ServeBeside(c, s0, s1, 0, 1, false);
    var s3 := LeadsOn(c, s0, s2, Happen(1, Degrade), false);
    var s4 := WaitUnstopped(c, s0, s3, 1, 0);
    s := ServeBeside(c, s0, s4, 1, 0, false);
  }

  /** ...each then sees the other up, and both erase their data. */
  lemma UnstoppedNodesLoseTheData(c: Config) returns (s: State)
    requires c.Valid() && c.stopMayFail && |c.servers| >= 2
    ensures WellFormed(c, s) && Leads(c, Doomed(c), s, false) && !SomeNodeHasData(s)
  {
    var s0 := Doomed(c);
    var s1 := BothUpAndWaiting(c);
    var s2 := LeadsOn(c, s0, s1, Act(0, SeeTarget), false);
    var s3 := LeadsOn(c, s0, s2, Act(1, SeeTarget), false);
    var s4 := LeadsOn(c, s0, s3, Act(0, ClearAndStart(true, true)), false);
    s := LeadsOn(c, s0, s4, Act(1, ClearAndStart(true, true)), false);
  }

  /** The data survives every run of every cluster exactly when `systemctl stop` cannot fail (or when
      there is no peer to lose it to). */
  lemma DataSurvivesIffStopsSucceed(c: Config)
    requires c.Valid()
    ensures DataAlwaysSurvives(c) <==> !c.stopMayFail || |c.servers| <= 1
  {
    if !c.stopMayFail || |c.servers| <= 1 {
      forall s, steps | Init(c, s) && SomeNodeHasData(s) && Runs(c, s, steps)
        ensures SomeNodeHasData(After(c, s, steps))
      {
        if |c.servers| <= 1 {
          LoneServerStaysPassive(c, s, steps);
        } else {
          var w :| 0 <= w < |s.nodes| && s.nodes[w].hasData;
          assert Keeper(s, w);
          RunKeepsInv(c, s, steps);
          var v: nat :| Keeper(After(c, s, steps), v);
          assert After(c, s, steps).nodes[v].hasData;
        }
      }
    } else {
      var s := UnstoppedNodesLoseTheData(c);
      var steps :| Route(c, Doomed(c), steps, s, false);
    }
  }
}
