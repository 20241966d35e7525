/** The reader/writer lock with timeouts of go/timedlock: a channel that holds one token, a channel that
    holds MAX_RLOCK tokens, a counter and a mutex, shared by any number of goroutines. Each channel and
    mutex operation is one step, a timeout may strike at every wait, and the goroutines interleave
    freely. Callers release what they acquired, once, with the id they were given. */
module TimedLock {
  import opened Numerals
  import opened Options

  const MAX_RLOCK: nat := 1000

  /** Where a goroutine stands; `id` is the lock id it was given. */
  datatype Pc =
    | Idle
    | Failed                 // timed out: error returned, or panicked, after putting everything back
    | Panicked               // "Unlock of unlocked mutex", "RUnlock of unlocked mutex", or id 0
    // Lock
    | LWant(id: nat)         // in the select
    | LDrain(id: nat)        // has the lock token, waits for the readers to leave
    | LCheck(id: nat)        // has the mutex too, looks at the reader tokens
    | LPass(id: nat) | LRetry(id: nat)
    | LGiveUp(id: nat)       // deadline passed, must put the lock token back
    | WHold(id: nat)         // holds the write lock
    // Unlock
    | UWant(id: nat) | UCheck(id: nat) | USend(id: nat) | UDone
    // RLock
    | RWant(id: nat)         // in the outer select
    | REnter(id: nat)        // has the lock token, wants the mutex
    | RSelect(id: nat)       // in the inner select
    | RTook(id: nat)         // has a reader token, must put the lock token back
    | RLeave(id: nat)
    | RBack(id: nat) | RBackDone
    | RHold(id: nat)         // holds a read lock
    // RUnlock
    | RUWant(id: nat) | RUCheck(id: nat) | RUSend(id: nat) | RUDone

  datatype Op =
    | StartLock | StartRLock | Release | Timeout | Return
    | TakeLockToken | SendLockToken | TakeReadToken | SendReadToken
    | GrabMutex | DropMutex | Check

  datatype State = State(lockTokens: nat, readTokens: nat, mutex: Option<nat>, c: nat, pc: seq<Pc>)

  // ---------- ids ----------

  /** `getNextId`, on a 64-bit counter that wraps around and skips 0. */
  function NextId(c: nat): (id: nat)
    requires c < TWO_64
  {
    var d := if c + 1 == TWO_64 then 0 else c + 1;
    if d == 0 then d + 1 else d
  }

  ghost function IdAfter(c: nat, k: nat): (id: nat)
    requires c < TWO_64
    ensures id < TWO_64
  {
    if k == 0 then c else NextId(IdAfter(c, k - 1))
  }

  /** No id is 0, and an id comes back after exactly 2^64 - 1 further calls. */
  lemma {:induction false} IdsDoNotRepeat(c: nat, k: nat)
    requires 0 < c < TWO_64 && k <= TWO_64 - 1
    ensures IdAfter(c, k) == if c + k < TWO_64 then c + k else c + k - (TWO_64 - 1)
    ensures IdAfter(c, k) > 0
    ensures IdAfter(c, k) == c <==> k == 0 || k == TWO_64 - 1
  {
    if k > 0 {
      IdsDoNotRepeat(c, k - 1);
    }
  }

  // ---------- the step system ----------

  ghost predicate Init(s: State)
  {
    && s.lockTokens == 1 && s.readTokens == MAX_RLOCK && s.mutex == None && s.c == 1
    && forall t :: 0 <= t < |s.pc| ==> s.pc[t] == Idle
  }

  /** Goroutine `t` stands where `op` is what its code does next. */
  ghost predicate AtOp(p: Pc, op: Op)
  {
    match op
    case StartLock => p.Idle?
    case StartRLock => p.Idle?
    case Release => p.WHold? || p.RHold?
    case Return => p.Failed?
    case Timeout => p.LWant? || p.LDrain? || p.RWant? || p.RSelect?
    case TakeLockToken => p.LWant? || p.RWant?
    case SendLockToken => p.LGiveUp? || p.USend? || p.RTook? || p.RBack?
    case TakeReadToken => p.RSelect?
    case SendReadToken => p.RUSend?
    case GrabMutex => p.LDrain? || p.UWant? || p.REnter? || p.RUWant?
    case DropMutex => p.LPass? || p.LRetry? || p.UDone? || p.RLeave? || p.RBackDone? || p.RUDone?
    case Check => p.LCheck? || p.UCheck? || p.RUCheck?
  }

  /** The operation can go through now: a receive needs a token, a send needs room. */
  ghost predicate Ready(s: State, op: Op)
  {
    match op
    case StartLock => s.mutex == None
    case StartRLock => s.mutex == None
    case TakeLockToken => s.lockTokens > 0
    case SendLockToken => s.lockTokens < 1
    case TakeReadToken => s.readTokens > 0
    case SendReadToken => s.readTokens < MAX_RLOCK
    case GrabMutex => s.mutex == None
    case _ => true
  }

  ghost predicate Enabled(s: State, t: nat, op: Op)
  {
    t < |s.pc| && s.c < TWO_64 && AtOp(s.pc[t], op) && Ready(s, op)
  }

  ghost function PcAfter(s: State, p: Pc, op: Op): (q: Pc)
    requires s.c < TWO_64 && AtOp(p, op)
  {
    match op
    case StartLock => LWant(NextId(s.c))
    case StartRLock => RWant(NextId(s.c))
    case Release => if p.WHold? then UWant(p.id) else RUWant(p.id)
    case Return => Idle
    case Timeout => if p.LDrain? then LGiveUp(p.id) else if p.RSelect? then RBack(p.id) else Failed
    case TakeLockToken => if p.LWant? then LDrain(p.id) else REnter(p.id)
    case SendLockToken =>
      if p.LGiveUp? then Failed else if p.USend? then UDone else if p.RTook? then RLeave(p.id) else RBackDone
    case TakeReadToken => RTook(p.id)
    case SendReadToken => RUDone
    case GrabMutex =>
      if p.LDrain? then LCheck(p.id) else if p.UWant? then UCheck(p.id)
      else if p.REnter? then RSelect(p.id) else RUCheck(p.id)
    case DropMutex =>
      if p.LPass? then WHold(p.id) else if p.LRetry? then LDrain(p.id)
      else if p.RLeave? then RHold(p.id) else if p.RBackDone? then Failed else Idle
    case Check =>
      if p.LCheck? then (if s.readTokens == MAX_RLOCK then LPass(p.id) else LRetry(p.id))
      else if p.UCheck? then (if s.lockTokens != 0 || p.id == 0 then Panicked else USend(p.id))
      else (if s.readTokens >= MAX_RLOCK || p.id == 0 then Panicked else RUSend(p.id))
  }

  ghost function Apply(s: State, t: nat, op: Op): (s': State)
    requires Enabled(s, t, op)
    ensures |s'.pc| == |s.pc|
  {
    var q := PcAfter(s, s.pc[t], op);
    State(
      if op == TakeLockToken then s.lockTokens - 1 else if op == SendLockToken then s.lockTokens + 1 else s.lockTokens,
      if op == TakeReadToken then s.readTokens - 1 else if op == SendReadToken then s.readTokens + 1 else s.readTokens,
      if op == GrabMutex then Some(t) else if op == DropMutex || q.Panicked? then None else s.mutex,
      if op == StartLock || op == StartRLock then NextId(s.c) else s.c,
      s.pc[t := q])
  }

  /** The states of a run, one step after another. */
  ghost predicate IsRun(run: seq<State>)
  {
    run != [] && Init(run[0]) && forall i :: 0 <= i < |run| - 1 ==> StepAt(run, i)
  }

  ghost predicate StepAt(run: seq<State>, i: nat)
    requires i < |run| - 1
  {
    exists t, op :: Enabled(run[i], t, op) && run[i + 1] == Apply(run[i], t, op)
  }

  // ---------- who holds what ----------

  predicate HasLockToken(p: Pc)
  {
    || p.LDrain? || p.LCheck? || p.LPass? || p.LRetry? || p.LGiveUp? || p.WHold? || p.UWant? || p.UCheck? || p.USend?
    || p.REnter? || p.RSelect? || p.RTook? || p.RBack?
  }

  predicate HasReadToken(p: Pc)
  {
    p.RTook? || p.RLeave? || p.RHold? || p.RUWant? || p.RUCheck? || p.RUSend?
  }

  ghost predicate HasMutex(p: Pc)
  {
    || p.LCheck? || p.LPass? || p.LRetry? || p.UCheck? || p.USend? || p.UDone?
    || p.RSelect? || p.RTook? || p.RLeave? || p.RBack? || p.RBackDone?
    || p.RUCheck? || p.RUSend? || p.RUDone?
  }

  /** From the moment `Lock` has decided to succeed until `Unlock` gives the token back. */
  ghost predicate Writing(p: Pc)
  {
    p.LPass? || p.WHold? || p.UWant? || p.UCheck? || p.USend?
  }

  ghost function Count(s: seq<Pc>, f: Pc -> bool): (n: nat)
  {
    if s == [] then 0 else (if f(s[0]) then 1 else 0) + Count(s[1..], f)
  }

  lemma {:induction false} CountUpdate(s: seq<Pc>, f: Pc -> bool, t: nat, q: Pc)
    requires t < |s|
    ensures Count(s[t := q], f) == Count(s, f) - (if f(s[t]) then 1 else 0) + (if f(q) then 1 else 0)
  {
    if t == 0 {
      assert s[t := q][1..] == s[1..];
    } else {
      CountUpdate(s[1..], f, t - 1, q);
      assert s[t := q][1..] == s[1..][t - 1 := q];
    }
  }

  lemma {:induction false} CountAtLeast(s: seq<Pc>, f: Pc -> bool, t: nat)
    requires t < |s| && f(s[t])
    ensures Count(s, f) >= 1
    ensures Count(s, f) == 1 ==> forall u :: 0 <= u < |s| && f(s[u]) ==> u == t
  {
    if t == 0 {
      forall u | 0 < u < |s| && f(s[u])
        ensures Count(s, f) >= 2
      {
        CountAtLeast(s[1..], f, u - 1);
      }
    } else {
      CountAtLeast(s[1..], f, t - 1);
    }
  }

  lemma {:induction false} CountNone(s: seq<Pc>, f: Pc -> bool)
    requires forall u :: 0 <= u < |s| ==> !f(s[u])
    ensures Count(s, f) == 0
  {
    if s != [] {
      CountNone(s[1..], f);
    }
  }

  // ---------- the invariant ----------

  ghost predicate GoodId(p: Pc)
  {
    match p
    case Idle => true
    case Failed => true
    case Panicked => false
    case UDone => true
    case RBackDone => true
    case RUDone => true
    case _ => 0 < p.id < TWO_64
  }

  ghost predicate Inv(s: State)
  {
    && 0 < s.c < TWO_64
    && s.lockTokens + Count(s.pc, HasLockToken) == 1
    && s.readTokens + Count(s.pc, HasReadToken) == MAX_RLOCK
    && (forall t :: 0 <= t < |s.pc| ==> GoodId(s.pc[t]))
    && (forall t :: 0 <= t < |s.pc| ==> (HasMutex(s.pc[t]) <==> s.mutex == Some(t)))
    && (s.mutex.Some? ==> s.mutex.value < |s.pc|)
    && (forall t :: 0 <= t < |s.pc| && Writing(s.pc[t]) ==> s.readTokens == MAX_RLOCK)
  }

  lemma InitInv(s: State)
    requires Init(s)
    ensures Inv(s)
  {
    CountNone(s.pc, HasLockToken);
    CountNone(s.pc, HasReadToken);
  }

  /** What a step on the lock channel does to the goroutine that takes it balances what it does to the
      channel... */
  lemma LockTokenBalances(s: State, p: Pc, op: Op)
    requires s.c < TWO_64 && AtOp(p, op)
    ensures op == TakeLockToken ==> !HasLockToken(p) && HasLockToken(PcAfter(s, p, op))
    ensures op == SendLockToken ==> HasLockToken(p) && !HasLockToken(PcAfter(s, p, op))
    ensures op != TakeLockToken && op != SendLockToken && !PcAfter(s, p, op).Panicked? ==>
              (HasLockToken(p) <==> HasLockToken(PcAfter(s, p, op)))
  {
  }

  /** ...and so for the reader channel... */
  lemma ReadTokenBalances(s: State, p: Pc, op: Op)
    requires s.c < TWO_64 && AtOp(p, op)
    ensures op == TakeReadToken ==> HasLockToken(p) && !HasReadToken(p) && HasReadToken(PcAfter(s, p, op))
    ensures op == SendReadToken ==> HasReadToken(p) && !HasReadToken(PcAfter(s, p, op))
    ensures op != TakeReadToken && op != SendReadToken && !PcAfter(s, p, op).Panicked? ==>
              (HasReadToken(p) <==> HasReadToken(PcAfter(s, p, op)))
  {
  }

  /** ...and the mutex. */
  lemma MutexBalances(s: State, p: Pc, op: Op)
    requires s.c < TWO_64 && AtOp(p, op)
    ensures op == GrabMutex ==> HasMutex(PcAfter(s, p, op))
    ensures op == DropMutex ==> HasMutex(p) && !HasMutex(PcAfter(s, p, op))
    ensures op != GrabMutex && op != DropMutex && !PcAfter(s, p, op).Panicked? ==>
              (HasMutex(p) <==> HasMutex(PcAfter(s, p, op)))
  {
  }

  /** A rightful release never reaches a panic. */
  lemma NoPanic(s: State, t: nat, op: Op)
    requires Inv(s) && Enabled(s, t, op)
    ensures GoodId(PcAfter(s, s.pc[t], op))
  {
    if HasLockToken(s.pc[t]) {
      CountAtLeast(s.pc, HasLockToken, t);
    }
    if HasReadToken(s.pc[t]) {
      CountAtLeast(s.pc, HasReadToken, t);
    }
  }

  lemma TokensConserved(s: State, t: nat, op: Op)
    requires Inv(s) && Enabled(s, t, op)
    ensures var s' := Apply(s, t, op);
            && s'.lockTokens + Count(s'.pc, HasLockToken) == 1
            && s'.readTokens + Count(s'.pc, HasReadToken) == MAX_RLOCK
  {
    var q := PcAfter(s, s.pc[t], op);
    NoPanic(s, t, op);
    LockTokenBalances(s, s.pc[t], op);
    ReadTokenBalances(s, s.pc[t], op);
    CountUpdate(s.pc, HasLockToken, t, q);
    CountUpdate(s.pc, HasReadToken, t, q);
  }

  /** While a writer is in, nobody else has the lock token, so no reader gets in. */
  lemma WritersKeepReadersOut(s: State, t: nat, op: Op, u: nat)
    requires Inv(s) && Enabled(s, t, op) && u < |s.pc| && Writing(Apply(s, t, op).pc[u])
    ensures Apply(s, t, op).readTokens == MAX_RLOCK
  {
    ReadTokenBalances(s, s.pc[t], op);
    TokensConserved(s, t, op);
    if Writing(s.pc[u]) {
      CountAtLeast(s.pc, HasLockToken, u);
    }
  }

  lemma StepKeepsInv(s: State, t: nat, op: Op)
    requires Inv(s) && Enabled(s, t, op)
    ensures Inv(Apply(s, t, op))
  {
    var s' := Apply(s, t, op);
    NoPanic(s, t, op);
    TokensConserved(s, t, op);
    MutexBalances(s, s.pc[t], op);
    forall u | 0 <= u < |s.pc| && Writing(s'.pc[u])
      ensures s'.readTokens == MAX_RLOCK
    {
      WritersKeepReadersOut(s, t, op, u);
    }
  }

  lemma StepOf(run: seq<State>, i: nat) returns (t: nat, op: Op)
    requires IsRun(run) && 0 < i < |run|
    ensures Enabled(run[i - 1], t, op) && run[i] == Apply(run[i - 1], t, op)
  {
    assert StepAt(run, i - 1);
    t, op :| Enabled(run[i - 1], t, op) && run[i] == Apply(run[i - 1], t, op);
  }

  lemma {:induction false} RunInv(run: seq<State>, i: nat)
    requires IsRun(run) && i < |run|
    ensures Inv(run[i])
  {
    if i == 0 {
      InitInv(run[0]);
    } else {
      RunInv(run, i - 1);
      var t, op := StepOf(run, i);
      StepKeepsInv(run[i - 1], t, op);
    }
  }

  // ---------- what holds in every state of every run ----------

  /** A write holder is alone: no other goroutine writes, and none reads. */
  lemma Exclusion(run: seq<State>, i: nat, t: nat, u: nat)
    requires IsRun(run) && i < |run| && t < |run[i].pc| && u < |run[i].pc| && t != u
    requires run[i].pc[t].WHold?
    ensures !Writing(run[i].pc[u]) && !HasReadToken(run[i].pc[u])
  {
    RunInv(run, i);
    CountAtLeast(run[i].pc, HasLockToken, t);
    if HasReadToken(run[i].pc[u]) {
      CountAtLeast(run[i].pc, HasReadToken, u);
    }
  }

  /** No token is lost or made: each is in its channel or with exactly one goroutine. Hence no send ever
      finds its channel full, and no rightful release panics. */
  lemma Conservation(run: seq<State>, i: nat, t: nat)
    requires IsRun(run) && i < |run| && t < |run[i].pc|
    ensures run[i].lockTokens + Count(run[i].pc, HasLockToken) == 1
    ensures run[i].readTokens + Count(run[i].pc, HasReadToken) == 1000
    ensures AtOp(run[i].pc[t], SendLockToken) ==> Ready(run[i], SendLockToken)
    ensures AtOp(run[i].pc[t], SendReadToken) ==> Ready(run[i], SendReadToken)
    ensures !run[i].pc[t].Panicked?
  {
    RunInv(run, i);
    if HasLockToken(run[i].pc[t]) {
      CountAtLeast(run[i].pc, HasLockToken, t);
    }
    if HasReadToken(run[i].pc[t]) {
      CountAtLeast(run[i].pc, HasReadToken, t);
    }
  }

  ghost predicate CanStep(s: State, t: nat)
  {
    exists op :: Enabled(s, t, op)
  }

  /** The owner of the mutex can always go on. */
  lemma OwnerCanStep(s: State, t: nat)
    requires Inv(s) && t < |s.pc| && HasMutex(s.pc[t])
    ensures CanStep(s, t)
  {
    var p := s.pc[t];
    if HasLockToken(p) {
      CountAtLeast(s.pc, HasLockToken, t);
    }
    if HasReadToken(p) {
      CountAtLeast(s.pc, HasReadToken, t);
    }
    var op := if p.LCheck? || p.UCheck? || p.RUCheck? then Check
              else if p.RSelect? then Timeout
              else if p.USend? || p.RTook? || p.RBack? then SendLockToken
              else if p.RUSend? then SendReadToken
              else DropMutex;
    assert Enabled(s, t, op);
  }

  /** No deadlock: every goroutine can go on, or waits for the mutex while its owner can go on. */
  lemma NoDeadlock(run: seq<State>, i: nat, t: nat)
    requires IsRun(run) && i < |run| && t < |run[i].pc|
    ensures CanStep(run[i], t) || (run[i].mutex.Some? && CanStep(run[i], run[i].mutex.value))
  {
    RunInv(run, i);
    var s, p := run[i], run[i].pc[t];
    if s.mutex.Some? {
      OwnerCanStep(s, s.mutex.value);
    } else {
      if HasLockToken(p) {
        CountAtLeast(s.pc, HasLockToken, t);
      }
      var op := if p.Idle? then StartLock
                else if p.Failed? then Return
                else if p.WHold? || p.RHold? then Release
                else if p.LWant? || p.RWant? then Timeout
                else if p.LGiveUp? then SendLockToken
                else GrabMutex;
      assert Enabled(s, t, op);
    }
  }

  // ---------- the reader that finds every read lock taken ----------

  ghost predicate Starved(s: State, t: nat, id: nat)
  {
    t < |s.pc| && s.pc[t] == RSelect(id) && s.readTokens == 0
  }

  /** Such a reader holds the mutex that `RUnlock` needs, so no read lock can be given back to it... */
  lemma StarvedStep(s: State, u: nat, op: Op, t: nat, id: nat)
    requires Inv(s) && Starved(s, t, id) && Enabled(s, u, op)
    ensures Starved(Apply(s, u, op), t, id) || Apply(s, u, op).pc[t] == RBack(id)
  {
    assert HasMutex(s.pc[t]);
    assert u == t || !HasMutex(s.pc[u]);
  }

  lemma StarvedNext(run: seq<State>, j: nat, t: nat, id: nat)
    requires IsRun(run) && 0 < j < |run| && Starved(run[j - 1], t, id)
    ensures t < |run[j].pc| && (Starved(run[j], t, id) || run[j].pc[t] == RBack(id))
  {
    RunInv(run, j - 1);
    var u, op := StepOf(run, j);
    StarvedStep(run[j - 1], u, op, t, id);
  }

  /** The reader is starved in the states from `i` up to `k`, and has been ended by its timer at `k`. */
  ghost predicate TimesOutAt(run: seq<State>, i: nat, k: nat, t: nat, id: nat)
  {
    && i < k < |run|
    && (forall m :: i <= m < k ==> Starved(run[m], t, id))
    && t < |run[k].pc| && run[k].pc[t] == RBack(id)
  }

  /** ...it stays where it is until its own timer ends the wait, and never gets the lock. */
  lemma {:induction false} StarvedReaderTimesOut(run: seq<State>, i: nat, j: nat, t: nat, id: nat)
    requires IsRun(run) && i <= j < |run| && Starved(run[i], t, id)
    ensures (forall m :: i <= m <= j ==> Starved(run[m], t, id)) || exists k: nat :: k <= j && TimesOutAt(run, i, k, t, id)
    decreases j - i
  {
    if i < j {
      StarvedReaderTimesOut(run, i, j - 1, t, id);
      if forall m :: i <= m <= j - 1 ==> Starved(run[m], t, id) {
        StarvedNext(run, j, t, id);
        assert Starved(run[j], t, id) || TimesOutAt(run, i, j, t, id);
      }
    }
  }

  // ---------- the lock can be had ----------

  ghost predicate RunsTo(run: seq<State>, s: State)
  {
    IsRun(run) && run[|run| - 1] == s
  }

  lemma Extend(run: seq<State>, s: State, t: nat, op: Op) returns (run': seq<State>, s': State)
    requires RunsTo(run, s) && Enabled(s, t, op)
    ensures s' == Apply(s, t, op) && RunsTo(run', s') && run' == run + [s']
  {
    s' := Apply(s, t, op);
    run' := run + [s'];
    forall i | 0 <= i < |run'| - 1
      ensures StepAt(run', i)
    {
      if i < |run| - 1 {
        assert StepAt(run, i);
        var u, o :| Enabled(run[i], u, o) && run[i + 1] == Apply(run[i], u, o);
        assert run'[i] == run[i] && run'[i + 1] == run[i + 1];
      } else {
        assert Enabled(run'[i], t, op) && run'[i + 1] == Apply(run'[i], t, op);
      }
    }
  }

  /** Nobody is inside an operation, and the lock token is there. */
  ghost predicate Quiet(s: State)
  {
    s.lockTokens == 1 && s.mutex == None && s.c < TWO_64
  }

  /** An idle goroutine gets an id, the lock token and the mutex. */
  lemma Enter(run: seq<State>, s: State, t: nat, start: Op) returns (run': seq<State>, s': State)
    requires RunsTo(run, s) && Quiet(s) && t < |s.pc| && s.pc[t].Idle? && (start == StartLock || start == StartRLock)
    ensures RunsTo(run', s') && run < run'
    ensures s' == State(0, s.readTokens, Some(t), NextId(s.c),
                        s.pc[t := if start == StartLock then LCheck(NextId(s.c)) else RSelect(NextId(s.c))])
  {
    var run1, s1 := Extend(run, s, t, start);
    var run2, s2 := Extend(run1, s1, t, TakeLockToken);
    run', s' := Extend(run2, s2, t, GrabMutex);
  }

  /** A run that comes to a quiet state without readers can go on with any idle goroutine getting the write
      lock. */
  lemma WriterCanGetIn(run: seq<State>, s: State, t: nat) returns (run': seq<State>, s': State)
    requires RunsTo(run, s) && Quiet(s) && s.readTokens == MAX_RLOCK && t < |s.pc| && s.pc[t].Idle?
    ensures RunsTo(run', s') && run < run' && t < |s'.pc| && s'.pc[t].WHold?
  {
    var run1, s1 := Enter(run, s, t, StartLock);
    var run2, s2 := Extend(run1, s1, t, Check);
    run', s' := Extend(run2, s2, t, DropMutex);
  }

  /** A run that comes to a quiet state with a read lock left can go on with any idle goroutine getting
      one, beside the readers there are, and is quiet again. */
  lemma ReaderCanGetIn(run: seq<State>, s: State, t: nat) returns (run': seq<State>, s': State)
    requires RunsTo(run, s) && Quiet(s) && s.readTokens > 0 && t < |s.pc| && s.pc[t].Idle?
    ensures RunsTo(run', s') && run < run' && Quiet(s') && s'.readTokens == s.readTokens - 1
    ensures s'.pc == s.pc[t := RHold(s'.c)]
  {
    var run1, s1 := Enter(run, s, t, StartRLock);
    var run2, s2 := Extend(run1, s1, t, TakeReadToken);
    var run3, s3 := Extend(run2, s2, t, SendLockToken);
    run', s' := Extend(run3, s3, t, DropMutex);
  }

  // ---------- giving up ----------

  ghost predicate GaveUp(p: Pc)
  {
    p.LGiveUp? || p.RBack? || p.RBackDone? || p.Failed?
  }

  /** In step `i` of the run the timer of goroutine `t` strikes. */
  ghost predicate TimeoutAt(run: seq<State>, i: nat, t: nat)
    requires i + 1 < |run|
  {
    Enabled(run[i], t, Timeout) && run[i + 1] == Apply(run[i], t, Timeout)
  }

  lemma OnlyTimeoutGivesUp(s: State, u: nat, op: Op, t: nat)
    requires Enabled(s, u, op) && t < |s.pc| && GaveUp(Apply(s, u, op).pc[t])
    ensures (u == t && op == Timeout) || GaveUp(s.pc[t])
  {
  }

  /** A goroutine that gives up, or has failed, has been timed out since it was last idle. */
  lemma {:induction false} GivingUpTakesATimeout(run: seq<State>, j: nat, t: nat) returns (i: nat)
    requires IsRun(run) && j < |run| && t < |run[j].pc| && GaveUp(run[j].pc[t])
    ensures i < j && TimeoutAt(run, i, t)
    ensures forall m :: i < m <= j ==> t < |run[m].pc| && !run[m].pc[t].Idle?
  {
    assert j > 0;
    var u, op := StepOf(run, j);
    OnlyTimeoutGivesUp(run[j - 1], u, op, t);
    if u == t && op == Timeout {
      i := j - 1;
    } else {
      i := GivingUpTakesATimeout(run, j - 1, t);
    }
  }

  /** A goroutine comes back to idle only from a release or from reporting its failure. */
  lemma IdleAfterReleaseOrFailure(run: seq<State>, j: nat, t: nat)
    requires IsRun(run) && 0 < j < |run| && t < |run[j].pc| && run[j].pc[t].Idle?
    ensures t < |run[j - 1].pc|
    ensures var p := run[j - 1].pc[t]; p.Idle? || p.Failed? || p.UDone? || p.RUDone?
  {
    var u, op := StepOf(run, j);
  }

  /** A release panics exactly when there is nothing to release, or with the id 0, and then changes nothing but
      the mutex it gives back. */
  lemma ReleasePanicsIff(s: State, t: nat)
    requires Enabled(s, t, Check) && (s.pc[t].UCheck? || s.pc[t].RUCheck?)
    ensures var s' := Apply(s, t, Check);
            && (s'.pc[t].Panicked? <==>
                s.pc[t].id == 0 || (if s.pc[t].UCheck? then s.lockTokens > 0 else s.readTokens >= MAX_RLOCK))
            && (s'.pc[t].Panicked? ==> s' == s.(mutex := None, pc := s.pc[t := Panicked]))
  {
  }

  /** A goroutine that has failed can report it and be idle again, with nothing changed. */
  lemma FailureIsReported(run: seq<State>, s: State, t: nat) returns (run': seq<State>, s': State)
    requires RunsTo(run, s) && t < |s.pc| && s.pc[t].Failed?
    ensures RunsTo(run', s') && run < run' && s' == s.(pc := s.pc[t := Idle])
  {
    RunInv(run, |run| - 1);
    run', s' := Extend(run, s, t, Return);
  }

  // ---------- a writer that meets readers ----------

  /** The run has come to `s`, and from step `from` on the timer of `t` has not struck. */
  ghost predicate Calm(run: seq<State>, s: State, from: nat, t: nat)
  {
    RunsTo(run, s) && forall i: nat :: from <= i && i + 1 < |run| ==> !TimeoutAt(run, i, t)
  }

  lemma CalmExtend(run: seq<State>, s: State, u: nat, op: Op, from: nat, t: nat) returns (run': seq<State>, s': State)
    requires Calm(run, s, from, t) && Enabled(s, u, op) && op != Timeout
    ensures s' == Apply(s, u, op) && Calm(run', s', from, t) && run < run'
  {
    run', s' := Extend(run, s, u, op);
    assert run' == run + [s'];
    forall i: nat | from <= i && i + 1 < |run'|
      ensures !TimeoutAt(run', i, t)
    {
      if i + 1 < |run| {
        assert run'[i] == run[i] && run'[i + 1] == run[i + 1] && !TimeoutAt(run, i, t);
      } else if TimeoutAt(run', i, t) {
        OnlyTimeoutGivesUp(s, u, op, t);
      }
    }
  }

  lemma ReaderMayLeave(run: seq<State>, s: State, u: nat)
    requires RunsTo(run, s) && u < |s.pc| && s.pc[u].RHold?
    ensures s.readTokens < MAX_RLOCK && s.pc[u].id > 0 && s.c < TWO_64
  {
    RunInv(run, |run| - 1);
    CountAtLeast(s.pc, HasReadToken, u);
  }

  lemma ReaderAsks(run: seq<State>, s: State, u: nat, from: nat, t: nat) returns (run': seq<State>, s': State)
    requires Calm(run, s, from, t) && s.mutex == None && u < |s.pc| && s.pc[u].RHold? && s.pc[u].id > 0
    requires s.readTokens < MAX_RLOCK && s.c < TWO_64
    ensures Calm(run', s', from, t) && run < run' && s' == s.(mutex := Some(u), pc := s.pc[u := RUSend(s.pc[u].id)])
  {
    var run1, s1 := CalmExtend(run, s, u, Release, from, t);
    var run2, s2 := CalmExtend(run1, s1, u, GrabMutex, from, t);
    run', s' := CalmExtend(run2, s2, u, Check, from, t);
  }

  /** A reader releases its lock. */
  lemma ReaderLeaves(run: seq<State>, s: State, u: nat, from: nat, t: nat) returns (run': seq<State>, s': State)
    requires Calm(run, s, from, t) && s.mutex == None && u < |s.pc| && s.pc[u].RHold?
    ensures Calm(run', s', from, t) && run < run'
    ensures s' == s.(readTokens := s.readTokens + 1, pc := s.pc[u := Idle])
  {
    ReaderMayLeave(run, s, u);
    var run1, s1 := ReaderAsks(run, s, u, from, t);
    var run2, s2 := CalmExtend(run1, s1, u, SendReadToken, from, t);
    run', s' := CalmExtend(run2, s2, u, DropMutex, from, t);
  }

  /** The readers from `m` on leave, one after the other. */
  lemma {:induction false} ReadersLeave(run: seq<State>, s: State, m: nat, from: nat, t: nat) returns (run': seq<State>, s': State)
    requires Calm(run, s, from, t) && s.mutex == None && t < |s.pc| && m <= |s.pc|
    requires forall u :: 0 <= u < m && u != t ==> s.pc[u].Idle?
    requires forall u :: m <= u < |s.pc| && u != t ==> s.pc[u].Idle? || s.pc[u].RHold?
    ensures Calm(run', s', from, t) && run <= run' && s'.mutex == None
    ensures |s'.pc| == |s.pc| && s'.pc[t] == s.pc[t] && forall u :: 0 <= u < |s.pc| && u != t ==> s'.pc[u].Idle?
    decreases |s.pc| - m
  {
    if m == |s.pc| {
      run', s' := run, s;
    } else if m == t || s.pc[m].Idle? {
      run', s' := ReadersLeave(run, s, m + 1, from, t);
    } else {
      var run1, s1 := ReaderLeaves(run, s, m, from, t);
      run', s' := ReadersLeave(run1, s1, m + 1, from, t);
    }
  }

  lemma NobodyReads(run: seq<State>, s: State)
    requires RunsTo(run, s) && forall u :: 0 <= u < |s.pc| ==> !HasReadToken(s.pc[u])
    ensures s.readTokens == MAX_RLOCK && s.c < TWO_64
  {
    RunInv(run, |run| - 1);
    CountNone(s.pc, HasReadToken);
  }

  /** With every other goroutine idle, a writer that waits for the readers to leave gets in. */
  lemma LastWriterPasses(run: seq<State>, s: State, from: nat, t: nat) returns (run': seq<State>, s': State)
    requires Calm(run, s, from, t) && s.mutex == None && t < |s.pc| && s.pc[t].LDrain?
    requires forall u :: 0 <= u < |s.pc| && u != t ==> s.pc[u].Idle?
    ensures Calm(run', s', from, t) && run < run' && s'.pc == s.pc[t := WHold(s.pc[t].id)]
  {
    NobodyReads(run, s);
    var run1, s1 := CalmExtend(run, s, t, GrabMutex, from, t);
    var run2, s2 := CalmExtend(run1, s1, t, Check, from, t);
    run', s' := CalmExtend(run2, s2, t, DropMutex, from, t);
  }

  /** A writer that has found readers looks again: it can get the lock once they have left, before its timer
      strikes. */
  lemma WriterOutlastsReaders(run: seq<State>, s: State, t: nat) returns (run': seq<State>, s': State)
    requires RunsTo(run, s) && t < |s.pc| && s.pc[t].LRetry?
    requires forall u :: 0 <= u < |s.pc| && u != t ==> s.pc[u].Idle? || s.pc[u].RHold?
    ensures Calm(run', s', |run| - 1, t) && run < run' && t < |s'.pc| && s'.pc[t] == WHold(s.pc[t].id)
  {
    var from := |run| - 1;
    RunInv(run, from);
    var run1, s1 := CalmExtend(run, s, t, DropMutex, from, t);
    var run2, s2 := ReadersLeave(run1, s1, 0, from, t);
    run', s' := LastWriterPasses(run2, s2, from, t);
  }
}
