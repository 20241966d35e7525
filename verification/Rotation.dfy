/** The rotation of ip4log and ip6log: rows of the history table older than a cutoff move to the archive
    table, a batch at a time, each batch in its own transaction. Tables are multisets of rows; which rows
    a statement with ORDER BY and LIMIT takes among rows with equal keys is up to the database. */
module Rotation {

  /** The columns the rotation copies. */
  datatype Row = Row(tenantId: int, mac: string, ip: string, startTime: int, endTime: int)

  type Table = multiset<Row>

  /** `b` is a result of `WHERE end_time < cutoff ORDER BY end_time LIMIT n` on `t`. */
  ghost predicate IsBatch(t: Table, cutoff: int, n: int, b: Table)
  {
    && b <= t && |b| <= n
    && (forall r :: r in b ==> r.endTime < cutoff)
    && (forall r, s :: r in b && s in t - b && s.endTime < cutoff ==> r.endTime <= s.endTime)
    && (|b| < n ==> forall s :: s in t - b ==> s.endTime >= cutoff)
  }

  /** No row of the batch ties with a different old row that is left out. */
  ghost predicate TieFree(t: Table, cutoff: int, b: Table)
  {
    forall r, s :: r in b && s in t - b && s.endTime < cutoff && r.endTime == s.endTime ==> r == s
  }

  lemma SubmultisetSize(a: Table, b: Table)
    requires a <= b
    ensures |a| <= |b| && (|a| == |b| ==> a == b)
  {
    assert b == a + (b - a);
  }

  lemma BatchesHaveOneSize(t: Table, cutoff: int, n: int, a: Table, b: Table)
    requires IsBatch(t, cutoff, n, a) && IsBatch(t, cutoff, n, b)
    ensures |a| <= |b|
  {
    if |b| < n {
      assert a <= b;
      SubmultisetSize(a, b);
    }
  }

  lemma NotContained(a: Table, b: Table) returns (r: Row)
    requires |a| == |b| && a != b
    ensures a[r] > b[r]
  {
    if a <= b {
      SubmultisetSize(a, b);
    }
    r :| a[r] > b[r];
  }

  /** Two batches that differ do so only in rows that tie across the batch's edge. */
  lemma TieFreeBatchIsUnique(t: Table, cutoff: int, n: int, a: Table, b: Table)
    requires IsBatch(t, cutoff, n, a) && IsBatch(t, cutoff, n, b) && TieFree(t, cutoff, a)
    ensures a == b
  {
    BatchesHaveOneSize(t, cutoff, n, a, b);
    BatchesHaveOneSize(t, cutoff, n, b, a);
    if a != b {
      var r := NotContained(a, b);
      var s := NotContained(b, a);
    }
  }

  lemma TiedBatchIsNotUnique(t: Table, cutoff: int, n: int, a: Table) returns (b: Table)
    requires IsBatch(t, cutoff, n, a) && !TieFree(t, cutoff, a)
    ensures IsBatch(t, cutoff, n, b) && b != a
  {
    var r, s :| r in a && s in t - a && s.endTime < cutoff && r.endTime == s.endTime && r != s;
    b := a - multiset{r} + multiset{s};
    assert b[s] == a[s] + 1;
  }

  ghost function Rotated(history: Table, archive: Table, inserted: Table, deleted: Table): (r: (Table, Table))
  {
    (history - deleted, archive + inserted)
  }

  /** No row is lost or doubled by a transaction whose two statements took these batches. */
  ghost predicate Conserves(history: Table, archive: Table, inserted: Table, deleted: Table)
  {
    var (h, a) := Rotated(history, archive, inserted, deleted);
    h + a == history + archive
  }

  /** A transaction conserves the rows, however the database breaks ties in each of its two statements,
      exactly when no tie straddles the edge of the batch. */
  lemma ConservesIffTieFree(history: Table, archive: Table, cutoff: int, n: int, b: Table)
    requires IsBatch(history, cutoff, n, b)
    ensures TieFree(history, cutoff, b) <==>
            forall p, q :: IsBatch(history, cutoff, n, p) && IsBatch(history, cutoff, n, q) ==> Conserves(history, archive, p, q)
  {
    if TieFree(history, cutoff, b) {
      forall p, q | IsBatch(history, cutoff, n, p) && IsBatch(history, cutoff, n, q)
        ensures Conserves(history, archive, p, q)
      {
        TieFreeBatchIsUnique(history, cutoff, n, b, p);
        TieFreeBatchIsUnique(history, cutoff, n, b, q);
      }
    } else {
      var q := TiedBatchIsNotUnique(history, cutoff, n, b);
      MixedBatchesLoseRows(history, archive, b, q);
    }
  }

  lemma MixedBatchesLoseRows(history: Table, archive: Table, p: Table, q: Table)
    requires p <= history && q <= history && p != q
    ensures !Conserves(history, archive, p, q)
  {
    var r :| p[r] != q[r];
    var (h, a) := Rotated(history, archive, p, q);
    assert (h + a)[r] == history[r] - q[r] + archive[r] + p[r];
  }

  // ---------- every such query has a result ----------

  lemma {:induction false} OldestRow(t: Table, cutoff: int, some: Row) returns (m: Row)
    requires some in t && some.endTime < cutoff
    ensures m in t && m.endTime < cutoff && forall s :: s in t && s.endTime < cutoff ==> m.endTime <= s.endTime
    decreases |t|
  {
    m := some;
    if s :| s in t && s.endTime < some.endTime {
      m := OldestRow(t - multiset{some}, cutoff, s);
    }
  }

  lemma {:induction false} BatchExists(t: Table, cutoff: int, n: nat) returns (b: Table)
    ensures IsBatch(t, cutoff, n, b)
    decreases n
  {
    b := multiset{};
    if n > 0 {
      if s :| s in t && s.endTime < cutoff {
        var m := OldestRow(t, cutoff, s);
        var rest := BatchExists(t - multiset{m}, cutoff, n - 1);
        b := rest + multiset{m};
        assert t - b == t - multiset{m} - rest;
      }
    }
  }

  // ---------- whole runs ----------

  /** `q` lists the rows of `t` older than the cutoff, by end time. */
  ghost predicate InOrder(t: Table, cutoff: int, q: seq<Row>)
  {
    && multiset(q) <= t
    && (forall r :: r in q ==> r.endTime < cutoff)
    && (forall s :: s in t - multiset(q) ==> s.endTime >= cutoff)
    && ByEndTime(q)
  }

  ghost predicate ByEndTime(q: seq<Row>)
  {
    forall i, j :: 0 <= i < j < |q| ==> q[i].endTime <= q[j].endTime
  }

  /** Position `e` cuts through rows that end at one time and are not all the same. */
  ghost predicate TieAt(q: seq<Row>, e: nat)
  {
    && 0 < e < |q| && q[e - 1].endTime == q[e].endTime
    && (exists r, s :: r in q && s in q && r != s && r.endTime == s.endTime == q[e].endTime)
  }

  /** No tie straddles an edge of the batches of `n` rows into which the list falls. */
  ghost predicate EdgeFree(q: seq<Row>, n: nat)
    requires n > 0
  {
    |q| <= n || (!TieAt(q, n) && EdgeFree(q[n..], n))
  }

  ghost predicate FallsApart(t: Table, cutoff: int, n: nat, q: seq<Row>)
    requires n > 0
  {
    InOrder(t, cutoff, q) && EdgeFree(q, n)
  }

  function Least(a: nat, b: nat): nat
  {
    if a <= b then a else b
  }

  lemma RowsOfBoth(q: seq<Row>, n: nat)
    requires n <= |q|
    ensures multiset(q) == multiset(q[..n]) + multiset(q[n..])
  {
    assert q == q[..n] + q[n..];
  }

  lemma CutInTwo(t: Table, cutoff: int, q: seq<Row>, n: nat)
    requires InOrder(t, cutoff, q) && n <= |q|
    ensures multiset(q[..n]) <= t && t - multiset(q[..n]) - multiset(q[n..]) == t - multiset(q)
    ensures InOrder(t - multiset(q[..n]), cutoff, q[n..])
  {
    RowsOfBoth(q, n);
    var rest := q[n..];
    assert forall r :: r in rest ==> r in multiset(q);
  }

  lemma RestIsLater(t: Table, cutoff: int, q: seq<Row>, n: nat, s: Row)
    requires InOrder(t, cutoff, q) && n <= |q| && s in t - multiset(q[..n]) && s.endTime < cutoff
    ensures s in q[n..]
  {
    CutInTwo(t, cutoff, q, n);
  }

  lemma FirstIsEarlier(q: seq<Row>, n: nat, r: Row, s: Row)
    requires ByEndTime(q) && n <= |q| && r in q[..n] && s in q[n..]
    ensures r.endTime <= s.endTime && (r.endTime == s.endTime ==> q[n - 1].endTime == q[n].endTime == r.endTime)
  {
    var i :| 0 <= i < n && q[..n][i] == r;
    var j :| 0 <= j < |q| - n && q[n..][j] == s;
    assert q[i] == r && q[n + j] == s;
    assert q[i].endTime <= q[n - 1].endTime <= q[n].endTime <= q[n + j].endTime;
  }

  /** The first `n` rows in order are a batch. */
  lemma FirstRowsAreBatch(t: Table, cutoff: int, q: seq<Row>, n: nat)
    requires InOrder(t, cutoff, q)
    ensures IsBatch(t, cutoff, n, multiset(q[..Least(n, |q|)]))
  {
    var m := Least(n, |q|);
    var first, b := q[..m], multiset(q[..m]);
    CutInTwo(t, cutoff, q, m);
    assert |b| == |first| == m;
    forall s | s in t - b && s.endTime < cutoff
      ensures m == n && forall r :: r in first ==> r.endTime <= s.endTime
    {
      RestIsLater(t, cutoff, q, m, s);
      forall r | r in first
        ensures r.endTime <= s.endTime
      {
        FirstIsEarlier(q, m, r, s);
      }
    }
  }

  lemma EdgeRows(t: Table, cutoff: int, q: seq<Row>, n: nat)
    requires InOrder(t, cutoff, q) && 0 < n < |q|
    ensures q[n - 1] in q[..n] && q[n] in q[n..]
    ensures forall s :: s in q[n..] ==> s in t - multiset(q[..n])
  {
    CutInTwo(t, cutoff, q, n);
    assert q[..n][n - 1] == q[n - 1] && q[n..][0] == q[n];
  }

  /** The batch of the first rows is free of ties exactly when no tie straddles its edge. */
  lemma TieFreeIffEdge(t: Table, cutoff: int, q: seq<Row>, n: nat)
    requires InOrder(t, cutoff, q) && 0 < n < |q|
    ensures TieFree(t, cutoff, multiset(q[..n])) <==> !TieAt(q, n)
  {
    if TieAt(q, n) {
      TieIsNotFree(t, cutoff, q, n);
    } else {
      forall r, s | r in multiset(q[..n]) && s in t - multiset(q[..n]) && s.endTime < cutoff && r.endTime == s.endTime
        ensures r == s
      {
        RestIsLater(t, cutoff, q, n, s);
        FirstIsEarlier(q, n, r, s);
        assert r in q && s in q;
      }
    }
  }

  lemma TieIsNotFree(t: Table, cutoff: int, q: seq<Row>, n: nat)
    requires InOrder(t, cutoff, q) && TieAt(q, n)
    ensures !TieFree(t, cutoff, multiset(q[..n]))
  {
    var b := multiset(q[..n]);
    EdgeRows(t, cutoff, q, n);
    var r, s :| r in q && s in q && r != s && r.endTime == s.endTime == q[n].endTime;
    var y := if r == q[n] then s else r;
    if y in q[..n] {
      assert y in b && q[n] in t - b;
    } else {
      assert y in q[n..];
      assert q[n - 1] in b && y in t - b;
      assert q[n - 1] in b && q[n] in t - b;
    }
  }

  /** What the two statements of a transaction took. */
  datatype Turn = Turn(inserted: Table, deleted: Table)

  /** The turns can follow one another, however the database breaks ties. */
  ghost predicate Rotates(history: Table, cutoff: int, n: int, turns: seq<Turn>)
  {
    turns == [] ||
    (IsBatch(history, cutoff, n, turns[0].inserted) && IsBatch(history, cutoff, n, turns[0].deleted) &&
     Rotates(history - turns[0].deleted, cutoff, n, turns[1..]))
  }

  /** All rows after the turns. */
  ghost function RowsAfter(history: Table, archive: Table, turns: seq<Turn>): (rows: Table)
    decreases |turns|
  {
    if turns == [] then history + archive
    else RowsAfter(history - turns[0].deleted, archive + turns[0].inserted, turns[1..])
  }

  lemma {:induction false} EdgeFreeConserves(history: Table, archive: Table, cutoff: int, n: nat, q: seq<Row>, turns: seq<Turn>)
    requires n > 0 && FallsApart(history, cutoff, n, q) && Rotates(history, cutoff, n, turns)
    ensures RowsAfter(history, archive, turns) == history + archive
    decreases |turns|
  {
    if turns != [] {
      var b := EdgeFreeBatch(history, cutoff, n, q, turns[0].inserted, turns[0].deleted);
      EdgeFreeConserves(history - b, archive + b, cutoff, n, q[Least(n, |q|)..], turns[1..]);
      assert history == (history - b) + b;
    }
  }

  /** Without a tie at the edge both statements take the first rows, and what follows has no tie at an edge. */
  lemma EdgeFreeBatch(history: Table, cutoff: int, n: nat, q: seq<Row>, p: Table, d: Table) returns (b: Table)
    requires n > 0 && FallsApart(history, cutoff, n, q)
    requires IsBatch(history, cutoff, n, p) && IsBatch(history, cutoff, n, d)
    ensures p == d == b <= history
    ensures FallsApart(history - b, cutoff, n, q[Least(n, |q|)..])
  {
    var m := Least(n, |q|);
    b := multiset(q[..m]);
    FirstRowsAreBatch(history, cutoff, q, n);
    CutInTwo(history, cutoff, q, m);
    if n < |q| {
      TieFreeIffEdge(history, cutoff, q, n);
    } else {
      assert q[m..] == [];
    }
    TieFreeBatchIsUnique(history, cutoff, n, b, p);
    TieFreeBatchIsUnique(history, cutoff, n, b, d);
  }

  lemma OneTurn(history: Table, archive: Table, cutoff: int, n: nat, turn: Turn)
    requires IsBatch(history, cutoff, n, turn.inserted) && IsBatch(history, cutoff, n, turn.deleted)
    ensures Rotates(history, cutoff, n, [turn])
    ensures RowsAfter(history, archive, [turn]) == history + archive <==> Conserves(history, archive, turn.inserted, turn.deleted)
  {
    assert [turn][1..] == [];
    assert Rotates(history - turn.deleted, cutoff, n, []);
  }

  /** A tie at the first edge can be broken so that rows are lost and others doubled... */
  lemma TieLosesRowsAtOnce(history: Table, archive: Table, cutoff: int, n: nat, q: seq<Row>) returns (turn: Turn)
    requires InOrder(history, cutoff, q) && TieAt(q, n)
    ensures Rotates(history, cutoff, n, [turn]) && RowsAfter(history, archive, [turn]) != history + archive
  {
    var b := multiset(q[..n]);
    FirstRowsAreBatch(history, cutoff, q, n);
    TieIsNotFree(history, cutoff, q, n);
    var d := TiedBatchIsNotUnique(history, cutoff, n, b);
    MixedBatchesLoseRows(history, archive, b, d);
    turn := Turn(b, d);
    OneTurn(history, archive, cutoff, n, turn);
  }

  /** ...and so can a tie at a later one. */
  lemma {:induction false} TieLosesRows(history: Table, archive: Table, cutoff: int, n: nat, q: seq<Row>) returns (turns: seq<Turn>)
    requires n > 0 && InOrder(history, cutoff, q) && !EdgeFree(q, n)
    ensures Rotates(history, cutoff, n, turns) && RowsAfter(history, archive, turns) != history + archive
    decreases |q|
  {
    if TieAt(q, n) {
      var turn := TieLosesRowsAtOnce(history, archive, cutoff, n, q);
      turns := [turn];
    } else {
      var b := multiset(q[..n]);
      FirstRowsAreBatch(history, cutoff, q, n);
      CutInTwo(history, cutoff, q, n);
      var rest := TieLosesRows(history - b, archive + b, cutoff, n, q[n..]);
      turns := [Turn(b, b)] + rest;
      MatchedTurnFirst(history, archive, cutoff, n, b, rest);
    }
  }

  lemma MatchedTurnFirst(history: Table, archive: Table, cutoff: int, n: nat, b: Table, rest: seq<Turn>)
    requires IsBatch(history, cutoff, n, b) && Rotates(history - b, cutoff, n, rest)
    ensures Rotates(history, cutoff, n, [Turn(b, b)] + rest)
    ensures RowsAfter(history, archive, [Turn(b, b)] + rest) == RowsAfter(history - b, archive + b, rest)
    ensures (history - b) + (archive + b) == history + archive
  {
    assert ([Turn(b, b)] + rest)[1..] == rest;
  }

  /** Over whole runs, the rows are conserved however each statement breaks its ties, if and only if no tie
      straddles an edge of the batches into which the old rows fall by end time. */
  lemma RunsConserveIffEdgeFree(history: Table, archive: Table, cutoff: int, n: nat, q: seq<Row>)
    requires n > 0 && InOrder(history, cutoff, q)
    ensures (forall turns :: Rotates(history, cutoff, n, turns) ==> RowsAfter(history, archive, turns) == history + archive)
            <==> EdgeFree(q, n)
  {
    if EdgeFree(q, n) {
      forall turns | Rotates(history, cutoff, n, turns)
        ensures RowsAfter(history, archive, turns) == history + archive
      {
        EdgeFreeConserves(history, archive, cutoff, n, q, turns);
      }
    } else {
      var turns := TieLosesRows(history, archive, cutoff, n, q);
    }
  }

  lemma {:induction false} OrderExists(t: Table, cutoff: int) returns (q: seq<Row>)
    ensures InOrder(t, cutoff, q)
    decreases |t|
  {
    q := [];
    if s :| s in t && s.endTime < cutoff {
      var m := OldestRow(t, cutoff, s);
      var rest := OrderExists(t - multiset{m}, cutoff);
      q := [m] + rest;
      OldestFirst(t, cutoff, m, rest);
    }
  }

  lemma OldestFirst(t: Table, cutoff: int, m: Row, rest: seq<Row>)
    requires m in t && m.endTime < cutoff && (forall s :: s in t && s.endTime < cutoff ==> m.endTime <= s.endTime)
    requires InOrder(t - multiset{m}, cutoff, rest)
    ensures InOrder(t, cutoff, [m] + rest)
  {
    var q := [m] + rest;
    TakenOneByOne(t, m, rest);
    forall i | 0 <= i < |rest|
      ensures m.endTime <= rest[i].endTime
    {
      assert rest[i] in multiset(rest);
    }
    assert ByEndTime(q);
  }

  lemma TakenOneByOne(t: Table, m: Row, rest: seq<Row>)
    requires m in t && multiset(rest) <= t - multiset{m}
    ensures multiset([m] + rest) <= t && t - multiset([m] + rest) == t - multiset{m} - multiset(rest)
    ensures forall r :: r in rest ==> r in t
  {
    assert multiset([m] + rest) == multiset{m} + multiset(rest);
    assert forall r :: r in rest ==> r in multiset(rest);
  }

  // ---------- the job ----------

  /** What goes wrong in one turn of the loop. A failed commit may or may not have taken effect. */
  datatype Fault = NoFault | BeginFails | InsertFails | InsertCountFails | DeleteFails | DeleteCountFails | CommitFails(applied: bool)

  /** How the database behaves in turn `k`: which rows each statement takes, what fails, and whether the
      time limit has passed by the end of the turn. */
  datatype Database = Database(
    toInsert: (nat, Table) -> Table,
    toDelete: (nat, Table) -> Table,
    fault: nat -> Fault,
    late: nat -> bool)
  {
    ghost predicate Answers(cutoff: int, n: int)
    {
      && (forall k, t :: IsBatch(t, cutoff, n, toInsert(k, t)))
      && (forall k, t :: IsBatch(t, cutoff, n, toDelete(k, t)))
    }

    /** The first `k` turns neither fail nor end late. */
    ghost predicate SmoothUntil(k: nat)
    {
      forall j :: 0 <= j < k ==> fault(j).NoFault? && !late(j)
    }

    /** The two statements of a turn break ties alike. */
    ghost predicate BreaksTiesAlike()
    {
      forall k, t :: toInsert(k, t) == toDelete(k, t)
    }

  }

  ghost predicate NoneOlder(t: Table, cutoff: int)
  {
    forall r :: r in t ==> r.endTime >= cutoff
  }

  /** The two statements of every turn take the same rows: by their way of breaking ties, or for want of a
      tie at an edge. */
  ghost predicate Matched(db: Database, t: Table, cutoff: int, n: int)
  {
    db.BreaksTiesAlike() || NoTieAtEdges(t, cutoff, n)
  }

  ghost predicate NoTieAtEdges(t: Table, cutoff: int, n: int)
  {
    n > 0 ==> exists q :: FallsApart(t, cutoff, n, q)
  }

  lemma NoTieStays(t: Table, cutoff: int, n: nat, p: Table, d: Table)
    requires n > 0 && NoTieAtEdges(t, cutoff, n) && IsBatch(t, cutoff, n, p) && IsBatch(t, cutoff, n, d)
    ensures p == d && NoTieAtEdges(t - d, cutoff, n)
  {
    var q :| FallsApart(t, cutoff, n, q);
    var b := EdgeFreeBatch(t, cutoff, n, q, p, d);
  }

  /** Only rows older than the cutoff have left the history, and as many have come to the archive. */
  ghost predicate OnlyOldLeft(h0: Table, a0: Table, h: Table, a: Table, cutoff: int)
  {
    h <= h0 && |h| + |a| == |h0| + |a0| && forall r :: r in h0 - h ==> r.endTime < cutoff
  }

  /** What has left the history is what has come to the archive. */
  ghost predicate Moved(h0: Table, a0: Table, h: Table, a: Table)
  {
    h <= h0 && a == a0 + (h0 - h)
  }

  lemma BatchLeaves(h0: Table, a0: Table, h: Table, a: Table, cutoff: int, n: int, p: Table, d: Table)
    requires OnlyOldLeft(h0, a0, h, a, cutoff) && IsBatch(h, cutoff, n, p) && IsBatch(h, cutoff, n, d)
    ensures OnlyOldLeft(h0, a0, h - d, a + p, cutoff)
    ensures |p| > 0 ==> |h - d| < |h|
  {
    BatchesHaveOneSize(h, cutoff, n, p, d);
    BatchesHaveOneSize(h, cutoff, n, d, p);
    assert h == (h - d) + d;
    assert h0 - (h - d) == (h0 - h) + d;
  }

  lemma BatchMoves(h0: Table, a0: Table, h: Table, a: Table, b: Table)
    requires Moved(h0, a0, h, a) && b <= h
    ensures Moved(h0, a0, h - b, a + b)
  {
    assert h0 - (h - b) == (h0 - h) + b;
  }

  /** Both statements of a turn take the same rows, and go on doing so. */
  lemma SameBatch(db: Database, k: nat, cutoff: int, n: int, h: Table)
    requires n > 0 && db.Answers(cutoff, n) && Matched(db, h, cutoff, n)
    ensures db.toInsert(k, h) == db.toDelete(k, h) && Matched(db, h - db.toDelete(k, h), cutoff, n)
  {
    var p, d := db.toInsert(k, h), db.toDelete(k, h);
    if !db.BreaksTiesAlike() {
      assert IsBatch(h, cutoff, n, p) && IsBatch(h, cutoff, n, d);
      NoTieStays(h, cutoff, n, p, d);
    }
  }

  /** A turn whose transaction takes effect. */
  lemma TurnKeeps(db: Database, k: nat, cutoff: int, n: int, h0: Table, a0: Table, h: Table, a: Table, matched: bool)
    requires n > 0 && db.Answers(cutoff, n) && OnlyOldLeft(h0, a0, h, a, cutoff)
    requires matched ==> Matched(db, h, cutoff, n) && Moved(h0, a0, h, a)
    ensures var p, d := db.toInsert(k, h), db.toDelete(k, h);
            && OnlyOldLeft(h0, a0, h - d, a + p, cutoff)
            && (|p| > 0 ==> |h - d| < |h|)
            && (matched ==> Matched(db, h - d, cutoff, n) && Moved(h0, a0, h - d, a + p))
  {
    var p, d := db.toInsert(k, h), db.toDelete(k, h);
    assert IsBatch(h, cutoff, n, p) && IsBatch(h, cutoff, n, d);
    BatchLeaves(h0, a0, h, a, cutoff, n, p, d);
    if matched {
      SameBatch(db, k, cutoff, n, h);
      BatchMoves(h0, a0, h, a, p);
    }
  }

  class IpLog {
    var history: Table
    var archive: Table

    /** One turn of the loop: a transaction that moves a batch, finds nothing left to move, or fails. A
        negative batch size is an error of its first statement. */
    method MoveOneBatch(db: Database, k: nat, cutoff: int, batch: int, ghost h0: Table, ghost a0: Table, ghost matched: bool)
      returns (more: bool)
      requires batch >= 0 ==> db.Answers(cutoff, batch)
      requires OnlyOldLeft(h0, a0, history, archive, cutoff)
      requires matched ==> Matched(db, history, cutoff, batch) && Moved(h0, a0, history, archive)
      modifies this
      ensures OnlyOldLeft(h0, a0, history, archive, cutoff)
      ensures matched ==> Matched(db, history, cutoff, batch) && Moved(h0, a0, history, archive)
      ensures more ==> |history| < |old(history)| && db.fault(k).NoFault?
      ensures !more && db.fault(k).NoFault? && batch > 0 ==> NoneOlder(history, cutoff)
    {
      more := false;
      var fault := db.fault(k);
      if fault.BeginFails? || fault.InsertFails? || batch < 0 {
        return;
      }
      var inserted := db.toInsert(k, history);
      assert IsBatch(history, cutoff, batch, inserted);
      if fault.InsertCountFails? || |inserted| <= 0 {
        return;  // nothing changed, whether rolled back or committed
      }
      var deleted := db.toDelete(k, history);
      if fault.DeleteFails? || fault.DeleteCountFails? || (fault.CommitFails? && !fault.applied) {
        return;  // rolled back
      }
      TurnKeeps(db, k, cutoff, batch, h0, a0, history, archive, matched);
      history, archive := history - deleted, archive + inserted;
      more := !fault.CommitFails?;
    }

    /** No turn follows one that failed or ended late. */
    method DoRotate(db: Database, cutoff: int, batch: int) returns (ghost turns: nat)
      requires batch >= 0 ==> db.Answers(cutoff, batch)
      modifies this
      ensures OnlyOldLeft(old(history), old(archive), history, archive, cutoff)
      ensures Matched(db, old(history), cutoff, batch) ==>
                history + archive == old(history) + old(archive) && archive == old(archive) + (old(history) - history)
      ensures turns > 0 && db.SmoothUntil(turns - 1)
      ensures batch > 0 && db.SmoothUntil(turns) ==> NoneOlder(history, cutoff)
    {
      ghost var h0, a0, matched := history, archive, Matched(db, history, cutoff, batch);
      var k := 0;
      var more := true;
      while more
        invariant OnlyOldLeft(h0, a0, history, archive, cutoff)
        invariant matched ==> Matched(db, history, cutoff, batch) && Moved(h0, a0, history, archive)
        invariant if more then db.SmoothUntil(k) else k > 0 && db.SmoothUntil(k - 1)
        invariant !more && batch > 0 && db.SmoothUntil(k) ==> NoneOlder(history, cutoff)
        decreases more, |history|
      {
        more := MoveOneBatch(db, k, cutoff, batch, h0, a0, matched);
        if db.late(k) {
          more := false;
        }
        k := k + 1;
      }
      if matched {
        assert h0 == history + (h0 - history);
      }
      turns := k;
    }
  }
}
