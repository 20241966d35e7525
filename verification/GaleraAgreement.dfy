/** Which nodes can decide to bootstrap a new cluster, and can two of them do so in one run? */
module GaleraAgreement {
  import opened Options
  import opened GaleraNodes
  import opened GaleraProtocol

  /** Number `x` of server `w` comes before number `y` of server `k`: greater, or equal and listed first. */
  ghost predicate Beats(w: nat, x: int, k: nat, y: int)
  {
    x > y || (x == y && w < k)
  }

  /** Node `k` may report a number that `x` of server `w` beats. */
  ghost predicate MayLoseTo(c: Config, k: nat, w: nat, x: int)
    requires c.Valid() && k < |c.servers|
  {
    exists y :: y in c.numbers[k] && y != DEFAULT_SEQNO && Beats(w, x, k, y)
  }

  /** With number `x`, node `w` can come out first. */
  ghost predicate CanWinWith(c: Config, w: nat, x: int)
    requires c.Valid()
  {
    && w < |c.servers| && x in c.numbers[w] && x != DEFAULT_SEQNO && x != RUNNING_SEQNO
    && (forall k: nat :: k < |c.servers| && k != w ==> MayLoseTo(c, k, w, x))
  }

  ghost predicate Electable(c: Config, w: nat)
    requires c.Valid()
  {
    exists x :: CanWinWith(c, w, x)
  }

  ghost predicate Bootstraps(s: State, i: nat)
  {
    i < |s.nodes| && (s.nodes[i].phase.Elected? || s.nodes[i].phase.Booting?)
  }

  // ---------- only an electable node ever bootstraps ----------

  /** A number recorded for node `k` is one that `k` may report. */
  ghost predicate GenuineView(c: Config, p: Phase)
    requires c.Valid()
  {
    p.Collecting? ==>
      && |p.view| == |c.servers|
      && forall k :: 0 <= k < |p.view| ==> p.view[k] == DEFAULT_SEQNO || p.view[k] in c.numbers[k]
  }

  ghost predicate GenuineMessage(c: Config, m: Message)
    requires c.Valid()
  {
    forall k :: 0 <= k < |c.servers| && c.servers[k].ip == m.from && m.seqno.Some? ==> m.seqno.value in c.numbers[k]
  }

  ghost predicate Inv(c: Config, s: State)
  {
    && WellFormed(c, s)
    && (forall m :: m in s.net ==> GenuineMessage(c, m))
    && (forall i :: 0 <= i < |s.nodes| ==> s.nodes[i].seqno in c.numbers[i])
    && (forall i :: 0 <= i < |s.nodes| ==> GenuineView(c, s.nodes[i].phase))
    && (forall i: nat :: Bootstraps(s, i) ==> Electable(c, i))
  }

  lemma ChosenIsElectable(c: Config, view: seq<int>, w: nat)
    requires c.Valid() && GenuineView(c, Collecting(view)) && Chosen(view, w)
    ensures Electable(c, w)
  {
    forall k: nat | k < |c.servers| && k != w
      ensures MayLoseTo(c, k, w, view[w])
    {
      assert view[k] in c.numbers[k] && Beats(w, view[w], k, view[k]);
    }
    assert CanWinWith(c, w, view[w]);
  }

  lemma ActionStaysGenuine(c: Config, s: State, i: nat, a: Action)
    requires Inv(c, s) && i < |s.nodes| && ActionEnabled(c, s, i, a)
    ensures GenuineView(c, Acted(c, s, i, a).phase)
    ensures Acted(c, s, i, a).phase.Elected? || Acted(c, s, i, a).phase.Booting? ==> Electable(c, i)
  {
    match a
    case Elect(winner) => ChosenIsElectable(c, s.nodes[i].phase.view, winner);
    case Deliver(m) => assert GenuineMessage(c, m);
    case ForceStop(_) => assert s.nodes[i].phase.Elected? ==> Bootstraps(s, i);
    case _ =>
  }

  lemma StepKeepsInv(c: Config, s: State, t: Step)
    requires Inv(c, s) && Enabled(c, s, t)
    ensures Inv(c, Apply(c, s, t))
  {
    var s' := Apply(c, s, t);
    assert forall k :: 0 <= k < |c.servers| ==> c.Ips()[k] == c.servers[k].ip;
    if t.Act? {
      ActionStaysGenuine(c, s, t.i, t.a);
    }
    forall i: nat | Bootstraps(s', i)
      ensures Electable(c, i)
    {
      assert Bootstraps(s, i) || (t.Act? && i == t.i);
    }
  }

  lemma {:induction false} RunKeepsInv(c: Config, s: State, steps: seq<Step>)
    requires Inv(c, s) && Runs(c, s, steps)
    ensures Inv(c, After(c, s, steps))
    decreases |steps|
  {
    if steps != [] {
      StepKeepsInv(c, s, steps[0]);
      RunKeepsInv(c, Apply(c, s, steps[0]), steps[1..]);
    }
  }

  /** At any point of any run, a node bound to bootstrap is electable. */
  lemma BootstrapperIsElectable(c: Config, s: State, steps: seq<Step>, i: nat)
    requires Init(c, s) && Runs(c, s, steps) && Bootstraps(After(c, s, steps), i)
    ensures Electable(c, i)
  {
    RunKeepsInv(c, s, steps);
  }

  /** With numbers that stay fixed, only the first node with the greatest number ever bootstraps. */
  lemma FixedNumbersAgree(c: Config, fixed: seq<int>, s: State, steps: seq<Step>, i: nat)
    requires Init(c, s) && |fixed| == |c.servers|
    requires forall k :: 0 <= k < |fixed| ==> c.numbers[k] == iset{fixed[k]}
    requires Runs(c, s, steps) && Bootstraps(After(c, s, steps), i)
    ensures IsFirstHighest(fixed, i)
  {
    BootstrapperIsElectable(c, s, steps, i);
    var x :| CanWinWith(c, i, x);
    forall k: nat | k < |fixed| && k != i
      ensures Beats(i, fixed[i], k, fixed[k])
    {
      assert MayLoseTo(c, k, i, x);
    }
    assert forall k: nat :: k < |fixed| && k != i ==> Beats(i, fixed[i], k, fixed[k]);
  }

  // ---------- every electable node can bootstrap, and two can do so in one run ----------

  ghost predicate Possible(c: Config, f: seq<int>)
    requires c.Valid()
  {
    |f| == |c.servers| && forall k :: 0 <= k < |f| ==> f[k] in c.numbers[k]
  }

  ghost function ReportOf(c: Config, f: seq<int>, k: nat): Message
    requires k < |f| == |c.servers|
  {
    Message(c.servers[k].ip, Some(f[k]))
  }

  ghost predicate AllSent(c: Config, s: State, f: seq<int>)
  {
    |f| == |c.servers| && forall k: nat :: k < |f| ==> ReportOf(c, f, k) in s.net
  }

  lemma StartCollecting(c: Config, s0: State, s: State, i: nat, blind: bool) returns (s': State)
    requires WellFormed(c, s0) && WellFormed(c, s) && Leads(c, s0, s, blind) && |c.servers| > 1
    requires i < |c.servers| && s.nodes[i].phase.Idle? && s.nodes[i].db != Available
    ensures s' == s.(nodes := s.nodes[i := s.nodes[i].(phase := Collecting(FreshView(|c.servers|)))])
    ensures WellFormed(c, s') && Leads(c, s0, s', blind)
  {
    var s1 := LeadsOn(c, s0, s, Act(i, Begin), blind);
    var s2, seen := ProbeAll(c, s0, s1, i, |c.servers|, blind);
    s' := LeadsOn(c, s0, s2, Act(i, Collect), blind);
  }

  /** Every node from `m` on moves to its number in `f` and reports it. */
  lemma {:induction false} SendAll(c: Config, s0: State, s: State, f: seq<int>, m: nat, blind: bool) returns (s': State)
    requires WellFormed(c, s0) && WellFormed(c, s) && Leads(c, s0, s, blind) && Possible(c, f) && m <= |f|
    ensures WellFormed(c, s') && Leads(c, s0, s', blind)
    ensures s.net <= s'.net && forall k: nat :: m <= k < |f| ==> ReportOf(c, f, k) in s'.net
    ensures forall i :: 0 <= i < |s.nodes| ==> s'.nodes[i] == s.nodes[i].(seqno := s'.nodes[i].seqno)
    decreases |f| - m
  {
    if m == |f| {
      s' := s;
    } else {
      var s1 := LeadsOn(c, s0, s, Happen(m, Commit(f[m])), blind);
      var s2 := LeadsOn(c, s0, s1, Report(m), blind);
      assert ReportOf(c, f, m) in s2.net;
      s' := SendAll(c, s0, s2, f, m + 1, blind);
    }
  }

  /** Node `i` receives the reports of `f` from `m` on. */
  lemma {:induction false} DeliverAll(c: Config, s0: State, s: State, i: nat, f: seq<int>, m: nat, blind: bool) returns (s': State)
    requires WellFormed(c, s0) && WellFormed(c, s) && Leads(c, s0, s, blind) && AllSent(c, s, f)
    requires i < |c.servers| && m <= |f|
    requires s.nodes[i].phase == Collecting(f[..m] + FreshView(|f| - m))
    ensures s' == s.(nodes := s.nodes[i := s.nodes[i].(phase := Collecting(f))])
    ensures WellFormed(c, s') && Leads(c, s0, s', blind)
    decreases |f| - m
  {
    if m == |f| {
      s' := s;
      assert f[..m] + FreshView(0) == f;
    } else {
      var view := s.nodes[i].phase.view;
      assert view[m] == DEFAULT_SEQNO;
      var s1 := LeadsOn(c, s0, s, Act(i, Deliver(ReportOf(c, f, m))), blind);
      assert s1.nodes[i].phase.view == f[..m + 1] + FreshView(|f| - (m + 1));
      s' := DeliverAll(c, s0, s1, i, f, m + 1, blind);
    }
  }

  /** Node `i`, which is first highest in `f`, receives the reports of `f` and elects itself. */
  lemma HearAndElect(c: Config, s0: State, s: State, i: nat, f: seq<int>, blind: bool) returns (s': State)
    requires WellFormed(c, s0) && WellFormed(c, s) && Leads(c, s0, s, blind) && AllSent(c, s, f) && Chosen(f, i)
    requires s.nodes[i].phase == Collecting(FreshView(|f|))
    ensures s' == s.(nodes := s.nodes[i := s.nodes[i].(phase := Elected)])
    ensures WellFormed(c, s') && Leads(c, s0, s', blind)
  {
    assert f[..0] + FreshView(|f|) == FreshView(|f|);
    var s1 := DeliverAll(c, s0, s, i, f, 0, blind);
    s' := LeadsOn(c, s0, s1, Act(i, Elect(i)), blind);
  }

  /** The nodes `a` and `b` hear different numbers, and each finds itself to be the bootstrap node. */
  lemma TwoBootstrap(c: Config, s0: State, f: seq<int>, g: seq<int>, a: nat, b: nat) returns (s: State)
    requires Init(c, s0) && a != b && forall i :: 0 <= i < |s0.nodes| ==> s0.nodes[i].db != Available
    requires Possible(c, f) && Possible(c, g) && Chosen(f, a) && Chosen(g, b)
    ensures WellFormed(c, s) && Leads(c, s0, s, false) && Bootstraps(s, a) && Bootstraps(s, b)
  {
    LeadsNowhere(c, s0, false);
    var s1 := StartCollecting(c, s0, s0, a, false);
    var s2 := StartCollecting(c, s0, s1, b, false);
    var s3 := SendAll(c, s0, s2, f, 0, false);
    var s4 := SendAll(c, s0, s3, g, 0, false);
    var s5 := HearAndElect(c, s0, s4, a, f, false);
    s := HearAndElect(c, s0, s5, b, g, false);
  }

  /** Over every run, no two nodes are bound to bootstrap at the same time. */
  ghost predicate NeverTwoBootstrap(c: Config)
  {
    forall s, steps, i: nat, j: nat ::
      Init(c, s) && Runs(c, s, steps) && Bootstraps(After(c, s, steps), i) && Bootstraps(After(c, s, steps), j) ==> i == j
  }

  ghost predicate OnlyOneElectable(c: Config)
    requires c.Valid()
  {
    forall v: nat, w: nat :: Electable(c, v) && Electable(c, w) ==> v == w
  }

  /** Numbers the nodes may report that make `w` the first with the greatest. */
  lemma WinningNumbers(c: Config, w: nat) returns (f: seq<int>)
    requires c.Valid() && Electable(c, w)
    ensures Possible(c, f) && Chosen(f, w)
  {
    var x :| CanWinWith(c, w, x);
    f := seq(|c.servers|, k requires 0 <= k < |c.servers| =>
           if k == w then x
           else assert MayLoseTo(c, k, w, x); var y :| y in c.numbers[k] && y != DEFAULT_SEQNO && Beats(w, x, k, y); y);
    assert forall k: nat :: k < |f| && k != w ==> Beats(w, f[w], k, f[k]);
  }

  /** All services are active, nothing is up, and the nodes have the numbers `f`. */
  ghost function AllDown(c: Config, f: seq<int>): (s: State)
    requires c.Valid() && Possible(c, f)
    ensures Init(c, s) && forall i :: 0 <= i < |s.nodes| ==> s.nodes[i].db == Active
  {
    State(seq(|f|, k requires 0 <= k < |f| => Local(Idle, Active, false, true, f[k])), {})
  }

  ghost predicate CanBootstrap(c: Config, w: nat)
  {
    exists s, steps :: Init(c, s) && Runs(c, s, steps) && Bootstraps(After(c, s, steps), w)
  }

  /** With a peer to hear from, the nodes that bootstrap in some run are exactly the electable ones. */
  lemma BootstrapsIffElectable(c: Config, w: nat)
    requires c.Valid() && |c.servers| > 1
    ensures CanBootstrap(c, w) <==> Electable(c, w)
  {
    if Electable(c, w) {
      var f := WinningNumbers(c, w);
      var s0 := AllDown(c, f);
      LeadsNowhere(c, s0, false);
      var s1 := StartCollecting(c, s0, s0, w, false);
      var s2 := SendAll(c, s0, s1, f, 0, false);
      var s := HearAndElect(c, s0, s2, w, f, false);
      var steps :| Route(c, s0, steps, s, false);
      assert Bootstraps(After(c, s0, steps), w);
    } else if CanBootstrap(c, w) {
      var s, steps :| Init(c, s) && Runs(c, s, steps) && Bootstraps(After(c, s, steps), w);
      BootstrapperIsElectable(c, s, steps, w);
    }
  }

  /** Two nodes can never bootstrap against each other, whatever becomes of the reports, exactly when at
      most one node is electable: so when the numbers are fixed, but not in general while they move. */
  lemma AgreementIffOneElectable(c: Config)
    requires c.Valid()
    ensures NeverTwoBootstrap(c) <==> OnlyOneElectable(c)
  {
    if OnlyOneElectable(c) {
      forall s, steps, i: nat, j: nat | Init(c, s) && Runs(c, s, steps) && Bootstraps(After(c, s, steps), i) && Bootstraps(After(c, s, steps), j)
        ensures i == j
      {
        BootstrapperIsElectable(c, s, steps, i);
        BootstrapperIsElectable(c, s, steps, j);
      }
    } else {
      var v: nat, w: nat :| Electable(c, v) && Electable(c, w) && v != w;
      var f := WinningNumbers(c, v);
      var g := WinningNumbers(c, w);
      var s := TwoBootstrap(c, AllDown(c, f), f, g, v, w);
      var steps :| Route(c, AllDown(c, f), steps, s, false);
    }
  }
}
