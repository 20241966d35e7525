/** The bounded history of requests in go/requesthistory: a ring of request objects, which are reused when
    the ring wraps, and an index from request ids to ring positions. Request messages are not modelled. */
module RequestHistory {
  import opened Options

  // ---------- the ring and the index as values ----------

  /** The ids in the ring, by position; `None` where no request has been put yet. */
  type Ids = seq<Option<string>>

  function NextPosition(pos: nat, n: nat): (p: nat)
    requires pos < n
    ensures p < n
  {
    if pos + 1 >= n then 0 else pos + 1
  }

  /** The position filled `d` acceptances before position `pos` became the next to fill. */
  function Slot(pos: nat, n: nat, d: nat): (i: nat)
    requires pos < n && 1 <= d <= n
    ensures i < n
  {
    if d <= pos then pos - d else pos + n - d
  }

  /** The ring holds the last ids accepted, each where it was put; the rest of it is empty. */
  ghost predicate Ring(ids: Ids, pos: nat, log: seq<string>)
  {
    && pos < |ids|
    && (|log| < |ids| ==> pos == |log| && forall i :: |log| <= i < |ids| ==> ids[i] == None)
    && (forall d :: 1 <= d <= |ids| && d <= |log| ==> ids[Slot(pos, |ids|, d)] == Some(log[|log| - d]))
  }

  /** The index sends an id to a position exactly when the ring has that id there. */
  ghost predicate Indexed(ids: Ids, index: map<string, int>)
  {
    && (forall u :: u in index ==> 0 <= index[u] < |ids| && ids[index[u]] == Some(u))
    && (forall i :: 0 <= i < |ids| && ids[i].Some? ==> ids[i].value in index && index[ids[i].value] == i)
  }

  /** The index after position `pos`, whatever it held, is given to `uuid`. */
  function Reindexed(ids: Ids, index: map<string, int>, pos: nat, uuid: string): (r: map<string, int>)
    requires pos < |ids|
  {
    (if ids[pos].Some? then index - {ids[pos].value} else index)[uuid := pos]
  }

  lemma AcceptKeepsIndex(ids: Ids, index: map<string, int>, pos: nat, uuid: string)
    requires Indexed(ids, index) && pos < |ids| && uuid !in index
    ensures Indexed(ids[pos := Some(uuid)], Reindexed(ids, index, pos, uuid))
  {
  }

  lemma AcceptKeepsRing(ids: Ids, pos: nat, log: seq<string>, uuid: string)
    requires Ring(ids, pos, log)
    ensures Ring(ids[pos := Some(uuid)], NextPosition(pos, |ids|), log + [uuid])
  {
    var n, ids', pos', log' := |ids|, ids[pos := Some(uuid)], NextPosition(pos, |ids|), log + [uuid];
    forall d | 1 <= d <= n && d <= |log'|
      ensures ids'[Slot(pos', n, d)] == Some(log'[|log'| - d])
    {
      if d > 1 {
        assert Slot(pos', n, d) == Slot(pos, n, d - 1) != pos;
      }
    }
  }

  /** No id is held at two positions. */
  lemma NoIdTwice(ids: Ids, index: map<string, int>, i: nat, j: nat)
    requires Indexed(ids, index) && i < |ids| && j < |ids| && ids[i].Some? && ids[i] == ids[j]
    ensures i == j
  {
    assert index[ids[i].value] == i;
  }

  /** How many ids are held. */
  function Held(accepted: nat, size: nat): nat
  {
    if accepted < size then accepted else size
  }

  /** The ids a history of the given size holds after accepting `log`, newest first. */
  ghost function Recent(log: seq<string>, size: nat): (r: seq<string>)
    ensures |r| == Held(|log|, size)
  {
    seq(Held(|log|, size), k requires 0 <= k < Held(|log|, size) => log[|log| - 1 - k])
  }

  /** The position `k` before the newest holds an id exactly when so many are held. */
  lemma HeldAt(ids: Ids, pos: nat, log: seq<string>, k: nat)
    requires Ring(ids, pos, log) && k < |ids|
    ensures ids[Slot(pos, |ids|, k + 1)] == None <==> k >= |Recent(log, |ids|)|
  {
    if k < |log| {
      assert ids[Slot(pos, |ids|, k + 1)] == Some(log[|log| - (k + 1)]);
    }
  }

  /** An id is indexed exactly when it is among the recent ones. */
  lemma IndexedIffRecent(ids: Ids, index: map<string, int>, pos: nat, log: seq<string>, u: string)
    requires Ring(ids, pos, log) && Indexed(ids, index)
    ensures u in index <==> u in Recent(log, |ids|)
  {
    var n, recent := |ids|, Recent(log, |ids|);
    if u in index {
      var i := index[u];
      var d := if i < pos then pos - i else pos + n - i;
      assert Slot(pos, n, d) == i;
      assert d <= |log|;
      assert recent[d - 1] == log[|log| - d];
    }
    if u in recent {
      var k :| 0 <= k < |recent| && recent[k] == u;
      assert ids[Slot(pos, n, k + 1)] == Some(log[|log| - (k + 1)]);
    }
  }

  // ---------- the objects ----------

  class Request {
    var requestId: string

    constructor ()
      ensures requestId == ""
    {
      requestId := "";
    }

    method Reset()
      modifies this
      ensures requestId == ""
    {
      requestId := "";
    }
  }

  class History {
    const container: array<Request?>
    var uuidMap: map<string, int>
    var currentPosition: nat
    /** The ids accepted so far. */
    ghost var log: seq<string>

    ghost function Requests(): (r: set<Request>)
      reads container
    {
      set i | 0 <= i < container.Length && container[i] != null :: container[i]
    }

    ghost function CurrentIds(): (ids: Ids)
      reads container, Requests()
    {
      seq(container.Length, i requires 0 <= i < container.Length reads container, Requests() =>
        if container[i] == null then None else Some(container[i].requestId))
    }

    /** The positions that hold a request are those of `ids`. */
    ghost predicate Occupied(ids: Ids)
      reads container
    {
      container.Length == |ids| && forall i :: 0 <= i < |ids| ==> (container[i] == null <==> ids[i] == None)
    }

    /** No request object stands at two positions, so that reusing one changes one id only. */
    ghost predicate Distinct()
      reads container
    {
      forall i, j :: 0 <= i < j < container.Length && container[i] != null ==> container[i] != container[j]
    }

    ghost predicate Valid()
      reads this, container, Requests()
    {
      Distinct() && Ring(CurrentIds(), currentPosition, log) && Indexed(CurrentIds(), uuidMap)
    }

    constructor (size: nat)
      requires size > 0
      ensures Valid() && log == [] && container.Length == size && fresh(container)
    {
      container := new Request?[size](_ => null);
      uuidMap, currentPosition, log := map[], 0, [];
    }

    /** Puts a request with the given id, reused or new, at the current position, and indexes it. */
    method Place(uuid: string) returns (r: Request)
      requires Distinct() && currentPosition < container.Length
      modifies this`uuidMap, container, Requests()
      ensures Distinct() && fresh(Requests() - old(Requests())) && r in Requests() && r.requestId == uuid
      ensures CurrentIds() == old(CurrentIds())[currentPosition := Some(uuid)]
      ensures uuidMap == Reindexed(old(CurrentIds()), old(uuidMap), currentPosition, uuid)
    {
      var held := container[currentPosition];
      if held != null {
        uuidMap := uuidMap - {held.requestId};
        held.Reset();
        r := held;
      } else {
        r := new Request();
      }
      r.requestId := uuid;
      container[currentPosition] := r;
      uuidMap := uuidMap[uuid := currentPosition];
    }

    /** Gives the position to a new id, and moves on to the next position. */
    method Accept(uuid: string) returns (r: Request)
      requires Valid() && uuid !in uuidMap
      modifies this, container, Requests()
      ensures Valid() && fresh(Requests() - old(Requests()))
      ensures log == old(log) + [uuid] && r in Requests() && r.requestId == uuid
    {
      ghost var ids := CurrentIds();
      ghost var ids', index', pos', log' := ids[currentPosition := Some(uuid)],
        Reindexed(ids, uuidMap, currentPosition, uuid), NextPosition(currentPosition, |ids|), log + [uuid];
      assert Ring(ids', pos', log') by {
        AcceptKeepsRing(ids, currentPosition, log, uuid);
      }
      assert Indexed(ids', index') by {
        AcceptKeepsIndex(ids, uuidMap, currentPosition, uuid);
      }
      r := Place(uuid);
      currentPosition := currentPosition + 1;
      if currentPosition >= container.Length {
        currentPosition := 0;
      }
      log := log + [uuid];
      assert CurrentIds() == ids' && uuidMap == index' && currentPosition == pos' && log == log';
    }

    /** Refused when the id is held already. Otherwise the request that took the oldest position. */
    method Create(uuid: string) returns (r: Request?)
      requires Valid()
      modifies this, container, Requests()
      ensures Valid() && fresh(Requests() - old(Requests()))
      ensures r == null <==> uuid in Recent(old(log), container.Length)
      ensures r == null ==> log == old(log) && CurrentIds() == old(CurrentIds())
      ensures r != null ==> log == old(log) + [uuid] && r in Requests() && r.requestId == uuid
    {
      IndexedIffRecent(CurrentIds(), uuidMap, currentPosition, log, uuid);
      if uuid in uuidMap {
        return null;
      }
      r := Accept(uuid);
    }

    method GetRequestByUuid(uuid: string) returns (r: Request?)
      requires Valid()
      ensures r != null <==> uuid in Recent(log, container.Length)
      ensures r != null ==> r in Requests() && r.requestId == uuid
    {
      IndexedIffRecent(CurrentIds(), uuidMap, currentPosition, log, uuid);
      if uuid in uuidMap {
        ghost var i := uuidMap[uuid];
        assert CurrentIds()[i] == Some(uuid);
        r := container[uuidMap[uuid]];
      } else {
        r := null;
      }
    }

    /** Collects what a new iterator returns: the requests at the slots it walks back over. */
    method Walk(it: HistoryIterator) returns (result: seq<Request>)
      requires it.rh == this && it.Good() && !it.started && Ring(it.ids, it.pos, it.log) && Occupied(it.ids)
      modifies it
      ensures |result| == Held(|it.log|, |it.ids|)
      ensures forall k :: 0 <= k < |result| ==> result[k] == container[Slot(it.pos, |it.ids|, k + 1)]
    {
      result := [];
      var r := it.Next();
      while r != null
        invariant it.Good() && it.started && |result| <= |it.ids|
        invariant r != null ==> it.back == |result| < Held(|it.log|, |it.ids|) && r == container[Slot(it.pos, |it.ids|, |result| + 1)]
        invariant r == null ==> |result| == Held(|it.log|, |it.ids|)
        invariant forall k :: 0 <= k < |result| ==> result[k] == container[Slot(it.pos, |it.ids|, k + 1)]
        decreases |it.ids| - |result|, r != null
      {
        result := result + [r];
        r := it.Next();
      }
    }

    /** The held requests, newest first. */
    method All() returns (result: seq<Request>)
      requires Valid()
      ensures |result| == |Recent(log, container.Length)|
      ensures forall k :: 0 <= k < |result| ==> result[k] in Requests() && result[k].requestId == Recent(log, container.Length)[k]
    {
      var it := new HistoryIterator(this);
      result := Walk(it);
      SlotsHoldRecent(result);
    }

    lemma SlotsHoldRecent(result: seq<Request>)
      requires Ring(CurrentIds(), currentPosition, log) && |result| <= Held(|log|, container.Length)
      requires forall k :: 0 <= k < |result| ==> result[k] == container[Slot(currentPosition, container.Length, k + 1)]
      ensures forall k :: 0 <= k < |result| ==> result[k] in Requests() && result[k].requestId == Recent(log, container.Length)[k]
    {
      forall k | 0 <= k < |result|
        ensures result[k] in Requests() && result[k].requestId == Recent(log, container.Length)[k]
      {
        assert CurrentIds()[Slot(currentPosition, container.Length, k + 1)] == Some(log[|log| - (k + 1)]);
      }
    }
  }

  /** A history needs room for at least one request. */
  method NewRequestHistory(size: int) returns (h: History?)
    ensures h == null <==> size <= 0
    ensures h != null ==> fresh(h) && h.Valid() && h.log == [] && h.container.Length == size
  {
    if size <= 0 {
      return null;
    }
    h := new History(size);
  }

  class HistoryIterator {
    const rh: History
    const start: nat
    var current: int
    var started: bool
    /** What it iterates over. */
    ghost const ids: Ids
    ghost const pos: nat
    ghost const log: seq<string>
    /** How many positions it stands before the newest one. */
    ghost var back: nat

    ghost predicate Good()
      reads this
    {
      && pos < |ids| && back < |ids| && (!started ==> back == 0)
      && start == Slot(pos, |ids|, 1) && current == Slot(pos, |ids|, back + 1)
    }

    constructor (h: History)
      requires h.Valid()
      ensures Good() && !started && Ring(ids, pos, log)
      ensures rh == h && ids == h.CurrentIds() && pos == h.currentPosition && log == h.log
    {
      rh := h;
      var startAt := h.currentPosition - 1;
      if startAt < 0 {
        startAt := h.container.Length + startAt;
      }
      start, current, started := startAt, startAt, false;
      ids, pos, log := h.CurrentIds(), h.currentPosition, h.log;
      back := 0;
    }

    /** Every call after the first moves one position back, round the ring; nothing is returned on an empty
        position and on coming round. */
    method Next() returns (r: Request?)
      requires Good() && Ring(ids, pos, log) && rh.Occupied(ids)
      modifies this
      ensures Good() && started && back == if old(started) then NextPosition(old(back), |ids|) else 0
      ensures r == null <==> (old(started) && back == 0) || back >= |Recent(log, |ids|)|
      ensures r != null ==> r == rh.container[Slot(pos, |ids|, back + 1)]
    {
      if started {
        current := current - 1;
        if current < 0 {
          current := rh.container.Length - 1;
        }
        back := NextPosition(back, |ids|);
        if current == start {
          return null;
        }
      } else {
        started := true;
      }
      HeldAt(ids, pos, log, back);
      return rh.container[current];
    }
  }
}
