/** The batched clean-up jobs of pfcron: a statement with a LIMIT is repeated until it affects no row, it
    fails, or the time is up; a job runs a list of such statements over the same cutoff. Tables are
    sequences of rows; which matching rows a statement with a LIMIT takes is up to the database. */
module Cleanup {
  import opened Options
  import opened Sequences

  /** `DELETE FROM t WHERE matches LIMIT ?`, or `UPDATE t SET ... WHERE matches LIMIT ?`, where `changed(now, r)`
      is the row after an update at time `now`. */
  datatype Statement<!R> =
    | Delete(matches: R -> bool)
    | Update(matches: R -> bool, changed: (int, R) -> R)

  /** The table after the statement took the rows at positions `at`. */
  function Executed<R>(s: Statement<R>, now: int, t: seq<R>, at: set<nat>): (r: seq<R>)
  {
    if t == [] then []
    else
      var n := |t| - 1;
      var before := Executed(s, now, t[..n], at);
      if n !in at then before + [t[n]]
      else if s.Delete? then before
      else before + [s.changed(now, t[n])]
  }

  /** The rows taken match, and are as many as the limit allows. */
  ghost predicate Takes<R>(s: Statement<R>, t: seq<R>, limit: int, at: set<nat>)
  {
    && |at| <= limit
    && (forall i :: i in at ==> i < |t| && s.matches(t[i]))
    && (|at| < limit ==> forall i: nat :: i < |t| && s.matches(t[i]) ==> i in at)
  }

  /** An updated row matches no more, and a row to be kept is neither taken nor produced. */
  ghost predicate Spares<R(!new)>(s: Statement<R>, keep: R -> bool)
  {
    && (forall r :: s.matches(r) ==> !keep(r))
    && (s.Update? ==> forall now, r :: s.matches(r) ==> !s.matches(s.changed(now, r)) && !keep(s.changed(now, r)))
  }

  /** One execution leaves the rows to keep as they were, in place and order. */
  lemma {:induction false} ExecutionSpares<R(!new)>(s: Statement<R>, keep: R -> bool, now: int, t: seq<R>, at: set<nat>)
    requires Spares(s, keep) && forall i :: i in at && i < |t| ==> s.matches(t[i])
    ensures Filter(Executed(s, now, t, at), keep) == Filter(t, keep)
  {
    if t != [] {
      var n := |t| - 1;
      var before := Executed(s, now, t[..n], at);
      ExecutionSpares(s, keep, now, t[..n], at);
      if n !in at {
        FilterSnoc(before, t[n], keep);
      } else if s.Update? {
        FilterSnoc(before, s.changed(now, t[n]), keep);
      }
    }
  }

  /** The number of matching rows falls by the number of rows taken. */
  lemma {:induction false} ExecutionProgresses<R(!new)>(s: Statement<R>, keep: R -> bool, now: int, t: seq<R>, at: set<nat>)
    requires Spares(s, keep) && forall i :: i in at ==> i < |t| && s.matches(t[i])
    ensures |Filter(Executed(s, now, t, at), s.matches)| == |Filter(t, s.matches)| - |at|
  {
    if t == [] {
      assert at == {};
    } else {
      var n := |t| - 1;
      var before := Executed(s, now, t[..n], at);
      ExecutedBelow(s, now, t[..n], at, at - {n});
      ExecutionProgresses(s, keep, now, t[..n], at - {n});
      if n !in at {
        assert at - {n} == at;
        FilterSnoc(before, t[n], s.matches);
      } else if s.Update? {
        FilterSnoc(before, s.changed(now, t[n]), s.matches);
      }
    }
  }

  lemma {:induction false} ExecutedBelow<R>(s: Statement<R>, now: int, t: seq<R>, a: set<nat>, b: set<nat>)
    requires forall i :: 0 <= i < |t| ==> (i in a <==> i in b)
    ensures Executed(s, now, t, a) == Executed(s, now, t, b)
  {
    if t != [] {
      ExecutedBelow(s, now, t[..|t| - 1], a, b);
    }
  }

  /** `r` is a row of `t`, or what an update at the given time makes of one that matches. */
  ghost predicate ComesFrom<R>(s: Statement<R>, now: int, t: seq<R>, r: R)
  {
    r in t || (s.Update? && exists i :: 0 <= i < |t| && s.matches(t[i]) && r == s.changed(now, t[i]))
  }

  /** An execution only removes rows, or changes rows that match. */
  lemma {:induction false} ExecutionAddsNothing<R>(s: Statement<R>, now: int, t: seq<R>, at: set<nat>, r: R)
    requires (forall i :: i in at && i < |t| ==> s.matches(t[i])) && r in Executed(s, now, t, at)
    ensures ComesFrom(s, now, t, r)
  {
    var n := |t| - 1;
    if r in Executed(s, now, t[..n], at) {
      ExecutionAddsNothing(s, now, t[..n], at, r);
      if r !in t {
        var i :| 0 <= i < n && s.matches(t[..n][i]) && r == s.changed(now, t[..n][i]);
        assert t[..n][i] == t[i];
      }
    }
  }

  /** An execution works, fails without effect, or takes effect and then loses its count of rows. */
  datatype Outcome = Works | Fails | LosesCount

  /** How the database behaves in turn `k`: the rows it takes, the time it sees, how the execution ends, and
      whether the time limit has passed by then. */
  datatype Database<!R(!new)> = Database(
    take: (nat, seq<R>) -> set<nat>, now: nat -> int, outcome: nat -> Outcome, late: nat -> bool)
  {
    ghost predicate Answers(s: Statement<R>, limit: int)
    {
      forall k, t :: Takes(s, t, limit, take(k, t))
    }

    /** The first `k` turns neither fail nor end late. */
    ghost predicate SmoothUntil(k: nat)
    {
      forall j :: 0 <= j < k ==> outcome(j).Works? && !late(j)
    }

    ghost predicate NeverFails()
    {
      forall k :: outcome(k).Works? && !late(k)
    }
  }

  class Table<R(!new)> {
    var rows: seq<R>

    /** One execution; the number of rows it took. */
    method Execute(db: Database<R>, s: Statement<R>, limit: nat, k: nat, ghost keep: R -> bool) returns (n: nat)
      requires db.Answers(s, limit) && Spares(s, keep)
      modifies this
      ensures Filter(rows, keep) == Filter(old(rows), keep)
      ensures |Filter(rows, s.matches)| == |Filter(old(rows), s.matches)| - n
      ensures n == 0 && limit > 0 ==> NoneMatches(s, rows)
      ensures forall r :: r in rows ==> ComesFrom(s, db.now(k), old(rows), r)
    {
      var at := db.take(k, rows);
      assert Takes(s, rows, limit, at);
      ghost var before := rows;
      ExecutionSpares(s, keep, db.now(k), before, at);
      ExecutionProgresses(s, keep, db.now(k), before, at);
      rows := Executed(s, db.now(k), rows, at);
      forall r | r in rows
        ensures ComesFrom(s, db.now(k), before, r)
      {
        ExecutionAddsNothing(s, db.now(k), before, at, r);
      }
      n := |at|;
      if n == 0 {
        NothingTaken(s, db.now(k), before, at);
      }
    }

    /** Repeats a statement. A negative limit is an error of the database. The rows of an execution whose count
        is lost have changed, but are not in the number returned. No turn follows one that failed or ended late. */
    method BatchStmt(db: Database<R>, s: Statement<R>, limit: int, ghost keep: R -> bool)
      returns (affected: nat, ok: bool, ghost turns: nat)
      requires limit >= 0 ==> db.Answers(s, limit)
      requires Spares(s, keep)
      modifies this
      ensures Filter(rows, keep) == Filter(old(rows), keep)
      ensures affected <= |Filter(old(rows), s.matches)| - |Filter(rows, s.matches)|
      ensures ok || (forall k :: !db.outcome(k).LosesCount?) ==>
                affected == |Filter(old(rows), s.matches)| - |Filter(rows, s.matches)|
      ensures turns > 0 && db.SmoothUntil(turns - 1)
      ensures ok <==> limit >= 0 && db.outcome(turns - 1).Works?
      ensures ok && limit > 0 && !db.late(turns - 1) ==> NoneMatches(s, rows)
      ensures forall r :: r in rows ==> ComesFromRun(db, s, old(rows), r)
      ensures limit < 0 || db.outcome(0).Fails? ==> rows == old(rows)
    {
      affected, ok, turns := 0, true, 0;
      var k := 0;
      while true
        invariant Filter(rows, keep) == Filter(old(rows), keep)
        invariant affected == |Filter(old(rows), s.matches)| - |Filter(rows, s.matches)|
        invariant forall r :: r in rows ==> ComesFromRun(db, s, old(rows), r)
        invariant k == 0 ==> rows == old(rows)
        invariant k > 0 ==> limit >= 0
        invariant ok && turns == k && db.SmoothUntil(k)
        decreases |Filter(rows, s.matches)|
      {
        turns := k + 1;
        if db.outcome(k).Fails? || limit < 0 {
          ok := false;
          break;
        }
        ghost var before := rows;
        var n := Execute(db, s, limit, k, keep);
        RunGoesOn(db, s, keep, k, old(rows), before, rows);
        if db.outcome(k).LosesCount? {
          ok := false;
          break;
        }
        if n <= 0 {
          break;
        }
        affected := affected + n;
        if db.late(k) {
          break;
        }
        k := k + 1;
      }
    }
  }

  /** `r` is a row of `t`, or what an update in some turn makes of one that matches. */
  ghost predicate ComesFromRun<R(!new)>(db: Database<R>, s: Statement<R>, t: seq<R>, r: R)
  {
    r in t || exists k: nat :: ComesFrom(s, db.now(k), t, r)
  }

  /** What has been changed once does not match again. */
  lemma RunGoesOn<R(!new)>(db: Database<R>, s: Statement<R>, keep: R -> bool, k: nat, first: seq<R>, before: seq<R>, after: seq<R>)
    requires Spares(s, keep) && (forall r :: r in before ==> ComesFromRun(db, s, first, r))
    requires forall r :: r in after ==> ComesFrom(s, db.now(k), before, r)
    ensures forall r :: r in after ==> ComesFromRun(db, s, first, r)
  {
    forall r | r in after
      ensures ComesFromRun(db, s, first, r)
    {
      if r !in before {
        var i :| 0 <= i < |before| && s.matches(before[i]) && r == s.changed(db.now(k), before[i]);
        assert before[i] in before && before[i] in first;
        assert ComesFrom(s, db.now(k), first, r);
      }
    }
  }

  ghost predicate NoneMatches<R>(s: Statement<R>, t: seq<R>)
  {
    forall r :: r in t ==> !s.matches(r)
  }

  lemma {:induction false} NothingTaken<R>(s: Statement<R>, now: int, t: seq<R>, at: set<nat>)
    requires |at| <= 0
    ensures Executed(s, now, t, at) == t
  {
    assert at == {};
    if t != [] {
      NothingTaken(s, now, t[..|t| - 1], at);
      assert t == t[..|t| - 1] + [t[|t| - 1]];
    }
  }

  // ---------- acct_cleanup ----------

  /** A RADIUS accounting session; times that are NULL are absent. */
  datatype Session = Session(id: int, start: Option<int>, stop: Option<int>)

  datatype LogEntry = LogEntry(id: int, timestamp: int)

  predicate IsOld(cutoff: int, r: Session)
  {
    r.start.Some? && r.start.value < cutoff
  }

  function CloseOldSessions(cutoff: int): (s: Statement<Session>)
  {
    Update((r: Session) => IsOld(cutoff, r) && r.stop.None?, (now: int, r: Session) => r.(stop := Some(now)))
  }

  function DeleteOldSessions(cutoff: int): (s: Statement<Session>)
  {
    Delete((r: Session) => IsOld(cutoff, r) && r.stop.Some?)
  }

  function DeleteOldEntries(cutoff: int): (s: Statement<LogEntry>)
  {
    Delete((r: LogEntry) => r.timestamp < cutoff)
  }

  ghost function RecentSession(cutoff: int): (keep: Session -> bool)
  {
    (r: Session) => r.start.None? || r.start.value >= cutoff
  }

  ghost function RecentEntry(cutoff: int): (keep: LogEntry -> bool)
  {
    (r: LogEntry) => r.timestamp >= cutoff
  }

  ghost function RecentOrOpen(cutoff: int): (keep: Session -> bool)
  {
    (r: Session) => r.start.None? || r.start.value >= cutoff || r.stop.None?
  }

  ghost function Open(): (keep: Session -> bool)
  {
    (r: Session) => r.stop.None?
  }

  /** `r` is one of the sessions, or one that was open and old and has been closed in some turn. */
  ghost predicate KeptOrClosed(closing: Database<Session>, cutoff: int, sessions: seq<Session>, r: Session)
  {
    || r in sessions
    || exists k: nat, open: Session ::
         && open in sessions && open.stop.None? && open.start.Some? && open.start.value < cutoff
         && r == Session(open.id, open.start, Some(closing.now(k)))
  }

  lemma ClosedSession(closing: Database<Session>, cutoff: int, sessions: seq<Session>, r: Session)
    requires ComesFromRun(closing, CloseOldSessions(cutoff), sessions, r)
    ensures KeptOrClosed(closing, cutoff, sessions, r)
  {
    var s := CloseOldSessions(cutoff);
    if r !in sessions {
      var k: nat :| ComesFrom(s, closing.now(k), sessions, r);
      var i :| 0 <= i < |sessions| && s.matches(sessions[i]) && r == s.changed(closing.now(k), sessions[i]);
      assert sessions[i] in sessions;
    }
  }

  /** The three statements of the job, over one cutoff; a failure of one does not stop the next. */
  method AcctCleanup(
    radacct: Table<Session>, radacctLog: Table<LogEntry>, cutoff: int, limit: int,
    closing: Database<Session>, deleting: Database<Session>, deletingLog: Database<LogEntry>)
    requires limit >= 0 ==> closing.Answers(CloseOldSessions(cutoff), limit)
    requires limit >= 0 ==> deleting.Answers(DeleteOldSessions(cutoff), limit)
    requires limit >= 0 ==> deletingLog.Answers(DeleteOldEntries(cutoff), limit)
    modifies radacct, radacctLog
    ensures Filter(radacct.rows, RecentSession(cutoff)) == Filter(old(radacct.rows), RecentSession(cutoff))
    ensures Filter(radacctLog.rows, RecentEntry(cutoff)) == Filter(old(radacctLog.rows), RecentEntry(cutoff))
    ensures forall r :: r in radacct.rows ==> KeptOrClosed(closing, cutoff, old(radacct.rows), r)
    ensures closing.outcome(0).Fails? ==> Filter(radacct.rows, Open()) == Filter(old(radacct.rows), Open())
    ensures limit > 0 && closing.NeverFails() && deleting.NeverFails() ==>
              radacct.rows == Filter(old(radacct.rows), RecentSession(cutoff))
    ensures limit > 0 && deletingLog.NeverFails() ==>
              radacctLog.rows == Filter(old(radacctLog.rows), RecentEntry(cutoff))
  {
    CleanSessions(radacct, cutoff, limit, closing, deleting);
    var n, ok, turns := radacctLog.BatchStmt(deletingLog, DeleteOldEntries(cutoff), limit, RecentEntry(cutoff));
    if limit > 0 && deletingLog.NeverFails() {
      FilterAll(radacctLog.rows, RecentEntry(cutoff));
    }
  }

  method CleanSessions(radacct: Table<Session>, cutoff: int, limit: int, closing: Database<Session>, deleting: Database<Session>)
    requires limit >= 0 ==> closing.Answers(CloseOldSessions(cutoff), limit)
    requires limit >= 0 ==> deleting.Answers(DeleteOldSessions(cutoff), limit)
    modifies radacct
    ensures Filter(radacct.rows, RecentSession(cutoff)) == Filter(old(radacct.rows), RecentSession(cutoff))
    ensures forall r :: r in radacct.rows ==> KeptOrClosed(closing, cutoff, old(radacct.rows), r)
    ensures closing.outcome(0).Fails? ==> Filter(radacct.rows, Open()) == Filter(old(radacct.rows), Open())
    ensures limit > 0 && closing.NeverFails() && deleting.NeverFails() ==>
              radacct.rows == Filter(old(radacct.rows), RecentSession(cutoff))
  {
    var n, ok, turns := radacct.BatchStmt(closing, CloseOldSessions(cutoff), limit, RecentSession(cutoff));
    ghost var closed := radacct.rows;
    n, ok, turns := radacct.BatchStmt(deleting, DeleteOldSessions(cutoff), limit, RecentOrOpen(cutoff));
    SparedBoth(closed, radacct.rows, cutoff);
    forall r | r in radacct.rows
      ensures KeptOrClosed(closing, cutoff, old(radacct.rows), r)
    {
      assert r in closed;
      ClosedSession(closing, cutoff, old(radacct.rows), r);
    }
    if limit > 0 && closing.NeverFails() && deleting.NeverFails() {
      FilterAll(radacct.rows, RecentSession(cutoff));
    }
  }

  /** Rows that agree on what is recent or open agree on what is recent and on what is open. */
  lemma SparedBoth(a: seq<Session>, b: seq<Session>, cutoff: int)
    requires Filter(a, RecentOrOpen(cutoff)) == Filter(b, RecentOrOpen(cutoff))
    ensures Filter(a, RecentSession(cutoff)) == Filter(b, RecentSession(cutoff)) && Filter(a, Open()) == Filter(b, Open())
  {
    FilterTwice(a, RecentOrOpen(cutoff), RecentSession(cutoff));
    FilterTwice(b, RecentOrOpen(cutoff), RecentSession(cutoff));
    FilterTwice(a, RecentOrOpen(cutoff), Open());
    FilterTwice(b, RecentOrOpen(cutoff), Open());
  }
}
