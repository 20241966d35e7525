/** `TryableOnce.Do` of go/tryableonce, called by any number of goroutines: a flag that is 0 (idle), 1 (a
    function is running) or 2 (a function has succeeded). Every access to the flag is one step. */
module TryableOnce {

  datatype Answer = Nil | Failed | Retry

  datatype Pc =
    | Idle
    | Top                       // at the top of the loop, about to look for 2
    | Swap                      // about to compare and swap 0 for 1
    | Running                   // calling the function
    | Storing(ok: bool)         // the function returned; about to store 2 or 0
    | Looking                   // lost the swap; about to load the flag
    | Returned(answer: Answer)
    | Panicked                  // the function did not return

  datatype Op = Call | Read | CompareAndSwap | FunctionReturns(ok: bool) | FunctionPanics | Store | Load | Leave

  /** `wins` counts the calls of a function that have returned without error. */
  datatype State = State(flag: nat, pc: seq<Pc>, wins: nat)

  ghost predicate Init(s: State)
  {
    s.flag == 0 && s.wins == 0 && forall t :: 0 <= t < |s.pc| ==> s.pc[t] == Idle
  }

  ghost predicate Enabled(s: State, t: nat, op: Op)
  {
    t < |s.pc| &&
    match op
    case Call => s.pc[t].Idle?
    case Read => s.pc[t].Top?
    case CompareAndSwap => s.pc[t].Swap?
    case FunctionReturns(ok) => s.pc[t].Running?
    case FunctionPanics => s.pc[t].Running?
    case Store => s.pc[t].Storing?
    case Load => s.pc[t].Looking?
    case Leave => s.pc[t].Returned?
  }

  ghost function Apply(s: State, t: nat, op: Op): (s': State)
    requires Enabled(s, t, op)
    ensures |s'.pc| == |s.pc|
  {
    match op
    case Call => s.(pc := s.pc[t := Top])
    case Read => s.(pc := s.pc[t := if s.flag == 2 then Returned(Nil) else Swap])
    case CompareAndSwap =>
      if s.flag == 0 then s.(flag := 1, pc := s.pc[t := Running]) else s.(pc := s.pc[t := Looking])
    case FunctionReturns(ok) => s.(pc := s.pc[t := Storing(ok)], wins := if ok then s.wins + 1 else s.wins)
    case FunctionPanics => s.(pc := s.pc[t := Panicked])
    case Store =>
      var ok := s.pc[t].ok;
      s.(flag := if ok then 2 else 0, pc := s.pc[t := Returned(if ok then Nil else Failed)])
    case Load =>
      s.(pc := s.pc[t := if s.flag == 0 then Returned(Retry) else if s.flag == 1 then Top else Returned(Nil)])
    case Leave => s.(pc := s.pc[t := Idle])
  }

  ghost predicate IsRun(run: seq<State>)
  {
    run != [] && Init(run[0]) && forall i :: 0 <= i < |run| - 1 ==> StepAt(run, i)
  }

  ghost predicate StepAt(run: seq<State>, i: nat)
    requires i < |run| - 1
  {
    exists t, op :: Enabled(run[i], t, op) && run[i + 1] == Apply(run[i], t, op)
  }

  /** The goroutine has the flag at 1. */
  ghost predicate Owns(p: Pc)
  {
    p.Running? || p.Storing? || p.Panicked?
  }

  ghost predicate Inv(s: State)
  {
    && (forall t, u :: 0 <= t < |s.pc| && 0 <= u < |s.pc| && Owns(s.pc[t]) && Owns(s.pc[u]) ==> t == u)
    && (forall t :: 0 <= t < |s.pc| && Owns(s.pc[t]) ==> s.flag == 1 && s.wins == if s.pc[t] == Storing(true) then 1 else 0)
    && (s.flag == 0 ==> s.wins == 0)
    && (s.flag == 2 ==> s.wins == 1)
    && s.flag <= 2 && s.wins <= 1
    && (forall t :: 0 <= t < |s.pc| && s.pc[t] == Returned(Nil) ==> s.flag == 2)
  }

  lemma StepKeepsInv(s: State, t: nat, op: Op)
    requires Inv(s) && Enabled(s, t, op)
    ensures Inv(Apply(s, t, op))
  {
  }

  lemma {:induction false} RunInv(run: seq<State>, i: nat)
    requires IsRun(run) && i < |run|
    ensures Inv(run[i])
  {
    if i > 0 {
      RunInv(run, i - 1);
      assert StepAt(run, i - 1);
      var t, op :| Enabled(run[i - 1], t, op) && run[i] == Apply(run[i - 1], t, op);
      StepKeepsInv(run[i - 1], t, op);
    }
  }

  /** In every state of every run: two functions never run at once, none runs once one has succeeded, at
      most one ever succeeds, and a call returns nil only after that. */
  lemma OnceIsSafe(run: seq<State>, i: nat, t: nat, u: nat)
    requires IsRun(run) && i < |run| && t < |run[i].pc| && u < |run[i].pc|
    ensures run[i].pc[t].Running? && run[i].pc[u].Running? ==> t == u
    ensures run[i].pc[t].Running? ==> run[i].wins == 0
    ensures run[i].wins <= 1
    ensures run[i].pc[t] == Returned(Nil) ==> run[i].wins == 1
  {
    RunInv(run, i);
  }

  /** After a function has panicked, no function runs again and no call returns nil, for ever. */
  lemma {:induction false} PanicIsFinal(run: seq<State>, i: nat, j: nat, t: nat)
    requires IsRun(run) && i <= j < |run| && t < |run[i].pc| && run[i].pc[t].Panicked?
    ensures |run[j].pc| == |run[i].pc| && run[j].pc[t].Panicked?
    ensures forall u :: 0 <= u < |run[j].pc| ==> !run[j].pc[u].Running? && run[j].pc[u] != Returned(Nil)
    decreases j - i
  {
    RunInv(run, j);
    if i < j {
      PanicIsFinal(run, i, j - 1, t);
      assert StepAt(run, j - 1);
    }
  }

  lemma Extend(run: seq<State>, t: nat, op: Op) returns (run': seq<State>)
    requires IsRun(run) && Enabled(run[|run| - 1], t, op)
    ensures IsRun(run') && run' == run + [Apply(run[|run| - 1], t, op)]
  {
    run' := run + [Apply(run[|run| - 1], t, op)];
    forall i | 0 <= i < |run'| - 1
      ensures StepAt(run', i)
    {
      if i < |run| - 1 {
        assert StepAt(run, i);
        var u, o :| Enabled(run[i], u, o) && run[i + 1] == Apply(run[i], u, o);
        assert run'[i] == run[i] && run'[i + 1] == run[i + 1];
      } else {
        assert Enabled(run'[i], t, op) && run'[i + 1] == Apply(run'[i], t, op);
      }
    }
  }

  /** Failing does not use the chance up: whenever the flag is 0, an idle goroutine's call can run its
      function, fail, and leave the flag at 0, or succeed and return nil. */
  lemma CanTryAgain(run: seq<State>, t: nat, ok: bool) returns (run': seq<State>)
    requires IsRun(run) && run[|run| - 1].flag == 0 && t < |run[|run| - 1].pc| && run[|run| - 1].pc[t].Idle?
    ensures IsRun(run') && run < run'
    ensures run'[|run'| - 1] ==
            run[|run| - 1].(flag := if ok then 2 else 0, wins := run[|run| - 1].wins + (if ok then 1 else 0),
                            pc := run[|run| - 1].pc[t := Returned(if ok then Nil else Failed)])
  {
    run' := Extend(run, t, Call);
    run' := Extend(run', t, Read);
    run' := Extend(run', t, CompareAndSwap);
    run' := Extend(run', t, FunctionReturns(ok));
    run' := Extend(run', t, Store);
  }

  // ---------- the calls beside a running function ----------

  ghost predicate InLoop(p: Pc)
  {
    p.Top? || p.Swap? || p.Looking?
  }

  /** While a function is running, the other calls go round and none of them returns. */
  lemma {:induction false} OthersWait(run: seq<State>, i: nat, j: nat, t: nat)
    requires IsRun(run) && i <= j < |run| && t < |run[i].pc| && InLoop(run[i].pc[t])
    requires forall m :: i <= m <= j ==> run[m].flag == 1
    ensures t < |run[j].pc| && InLoop(run[j].pc[t])
    decreases j - i
  {
    if i < j {
      OthersWait(run, i, j - 1, t);
      assert StepAt(run, j - 1);
    }
  }

  /** A call is told to retry only on finding the flag at 0, and is told of a failure only as the one whose
      function has failed. */
  lemma AnswersAreTrue(run: seq<State>, j: nat, t: nat)
    requires IsRun(run) && 0 < j < |run| && t < |run[j].pc| && t < |run[j - 1].pc| && run[j - 1].pc[t] != run[j].pc[t]
    ensures run[j].pc[t] == Returned(Retry) ==> run[j - 1].flag == 0 && run[j - 1].pc[t].Looking?
    ensures run[j].pc[t] == Returned(Failed) ==> run[j - 1].pc[t] == Storing(false) && run[j].flag == 0
    ensures run[j].pc[t] == Returned(Nil) ==> run[j].flag == 2
  {
    RunInv(run, j - 1);
    assert StepAt(run, j - 1);
  }

  /** After a success every call returns nil at its first look. */
  lemma SuccessIsFinal(run: seq<State>, t: nat) returns (run': seq<State>)
    requires IsRun(run) && run[|run| - 1].flag == 2 && t < |run[|run| - 1].pc| && run[|run| - 1].pc[t].Idle?
    ensures IsRun(run') && run < run' && |run'| == |run| + 2
    ensures run'[|run'| - 1] == run[|run| - 1].(pc := run[|run| - 1].pc[t := Returned(Nil)])
  {
    run' := Extend(run, t, Call);
    run' := Extend(run', t, Read);
  }

  /** A call that loses the swap to a function that then fails is told to retry. */
  lemma LoserIsToldToRetry(run: seq<State>, t: nat) returns (run': seq<State>)
    requires IsRun(run) && run[|run| - 1].flag == 0 && t < |run[|run| - 1].pc| && run[|run| - 1].pc[t].Looking?
    ensures IsRun(run') && run < run' && run'[|run'| - 1] == run[|run| - 1].(pc := run[|run| - 1].pc[t := Returned(Retry)])
  {
    run' := Extend(run, t, Load);
  }
}
