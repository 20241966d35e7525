/** The per-node bookkeeping of galera-autofix: the list of cluster servers a node keeps while it
    decides what to do, the sequence numbers its peers report, and the choice of the bootstrap node. */
module GaleraNodes {
  import opened Options
  import Sequences

  const RUNNING_SEQNO := -1
  const DEFAULT_SEQNO := -2

  /** One server of the cluster configuration. */
  datatype Server = Server(ip: string, hostname: string)

  /** One datagram: the sender's address, and the sequence number if the payload parses as a
      `set_seqno` message. */
  datatype Message = Message(from: string, seqno: Option<int>)

  // ---------- what one message, and a whole inbox, does to a view of the sequence numbers ----------

  ghost function FreshView(n: nat): (view: seq<int>)
  {
    seq(n, _ => DEFAULT_SEQNO)
  }

  /** The view after `m`: the slot of every server with the sender's address takes the number. */
  ghost function Record(ips: seq<string>, view: seq<int>, m: Message): (r: seq<int>)
    requires |view| == |ips|
    ensures |r| == |ips|
  {
    if m.seqno.None? then view
    else seq(|ips|, k requires 0 <= k < |ips| => if ips[k] == m.from then m.seqno.value else view[k])
  }

  ghost function RecordAll(ips: seq<string>, view: seq<int>, inbox: seq<Message>): (r: seq<int>)
    requires |view| == |ips|
    ensures |r| == |ips|
    decreases |inbox|
  {
    if inbox == [] then view
    else Record(ips, RecordAll(ips, view, inbox[..|inbox| - 1]), inbox[|inbox| - 1])
  }

  ghost predicate AllReported(view: seq<int>)
  {
    forall k :: 0 <= k < |view| ==> view[k] != DEFAULT_SEQNO
  }

  /** After the first `k` datagrams every server has reported. */
  ghost predicate Complete(ips: seq<string>, view: seq<int>, inbox: seq<Message>, k: nat)
    requires |view| == |ips| && k <= |inbox|
  {
    AllReported(RecordAll(ips, view, inbox[..k]))
  }

  lemma RecordOneMore(ips: seq<string>, view: seq<int>, inbox: seq<Message>, k: nat)
    requires |view| == |ips| && k < |inbox|
    ensures RecordAll(ips, view, inbox[..k + 1]) == Record(ips, RecordAll(ips, view, inbox[..k]), inbox[k])
  {
    assert inbox[..k + 1][..k] == inbox[..k];
  }

  /** `w` is the first server, in configuration order, among those with the greatest number. */
  ghost predicate IsFirstHighest(view: seq<int>, w: nat)
  {
    && w < |view|
    && (forall k :: 0 <= k < |view| ==> view[k] <= view[w])
    && (forall k :: 0 <= k < w ==> view[k] < view[w])
  }

  /** `w` is the server this view makes the bootstrap node. */
  ghost predicate Chosen(view: seq<int>, w: nat)
  {
    AllReported(view) && IsFirstHighest(view, w) && view[w] != RUNNING_SEQNO
  }

  lemma FirstHighestUnique(view: seq<int>, v: nat, w: nat)
    requires IsFirstHighest(view, v) && IsFirstHighest(view, w)
    ensures v == w
  {
    assert view[v] == view[w];
  }

  /** The first server, in configuration order, that is not `me` and was seen with its database up. */
  ghost predicate IsFirstAvailablePeer(hosts: seq<string>, seen: seq<bool>, me: string, p: nat)
    requires |seen| == |hosts|
  {
    && p < |hosts| && hosts[p] != me && seen[p]
    && (forall k :: 0 <= k < p && hosts[k] != me ==> !seen[k])
  }

  // ---------- the objects ----------

  class Node {
    const ip: string
    const hostname: string
    var seqno: int
    var dbAvailable: bool

    constructor (ip: string, hostname: string)
      ensures this.ip == ip && this.hostname == hostname
      ensures seqno == DEFAULT_SEQNO && !dbAvailable
    {
      this.ip, this.hostname := ip, hostname;
      seqno, dbAvailable := DEFAULT_SEQNO, false;
    }

    predicate IsThisServer(me: string)
    {
      me == hostname
    }
  }

  ghost function OtherThan(me: string): Node -> bool
  {
    (n: Node) => n.hostname != me
  }

  class NodeList {
    var nodes: seq<Node>

    /** Every entry is its own object, so writing one slot leaves the others alone. */
    ghost predicate Valid()
      reads this
    {
      forall i, j :: 0 <= i < j < |nodes| ==> nodes[i] != nodes[j]
    }

    ghost function Ips(): (r: seq<string>)
      reads this
    {
      seq(|nodes|, k requires 0 <= k < |nodes| reads this => nodes[k].ip)
    }

    ghost function Hosts(): (r: seq<string>)
      reads this
    {
      seq(|nodes|, k requires 0 <= k < |nodes| reads this => nodes[k].hostname)
    }

    /** The sequence numbers this node has heard so far. */
    ghost function View(): (r: seq<int>)
      reads this, nodes
    {
      seq(|nodes|, k requires 0 <= k < |nodes| reads this, nodes => nodes[k].seqno)
    }

    ghost function Seen(): (r: seq<bool>)
      reads this, nodes
    {
      seq(|nodes|, k requires 0 <= k < |nodes| reads this, nodes => nodes[k].dbAvailable)
    }

    constructor ()
      ensures Valid() && nodes == []
    {
      nodes := [];
    }

    method AddNode(node: Node)
      requires Valid() && node !in nodes
      modifies this
      ensures Valid() && nodes == old(nodes) + [node]
    {
      nodes := nodes + [node];
    }

    method HandleMessage(m: Message)
      requires Valid()
      modifies nodes
      ensures View() == Record(Ips(), old(View()), m)
      ensures Seen() == old(Seen())
    {
      if m.seqno.None? {
        return;
      }
      for i := 0 to |nodes|
        invariant forall k :: 0 <= k < i ==>
                    nodes[k].seqno == if nodes[k].ip == m.from then m.seqno.value else old(nodes[k].seqno)
        invariant forall k :: i <= k < |nodes| ==> nodes[k].seqno == old(nodes[k].seqno)
        invariant forall k :: 0 <= k < |nodes| ==> nodes[k].dbAvailable == old(nodes[k].dbAvailable)
      {
        if nodes[i].ip == m.from {
          nodes[i].seqno := m.seqno.value;
        }
      }
    }

    method HaveAllReported() returns (all: bool)
      ensures all <==> AllReported(View())
    {
      all := true;
      for i := 0 to |nodes|
        invariant all <==> forall k :: 0 <= k < i ==> nodes[k].seqno != DEFAULT_SEQNO
      {
        if nodes[i].seqno == DEFAULT_SEQNO {
          all := false;
        }
      }
      assert forall k :: 0 <= k < |nodes| ==> View()[k] == nodes[k].seqno;
    }

    /** Reads datagrams until every server has reported or the deadline ends the inbox. */
    method GetSeqnoReport(inbox: seq<Message>) returns (ok: bool, ghost read: nat)
      requires Valid()
      modifies nodes
      ensures read <= |inbox| && View() == RecordAll(Ips(), old(View()), inbox[..read])
      ensures ok ==> 0 < read && Complete(Ips(), old(View()), inbox, read)
      ensures !ok ==> read == |inbox| && (inbox != [] ==> !Complete(Ips(), old(View()), inbox, read))
      ensures forall k :: 0 < k < read ==> !Complete(Ips(), old(View()), inbox, k)
      ensures Seen() == old(Seen())
    {
      ghost var ips, blank, seen := Ips(), View(), Seen();
      read := 0;
      assert inbox[..0] == [];
      for i := 0 to |inbox|
        invariant read == i && Ips() == ips && Seen() == seen && View() == RecordAll(ips, blank, inbox[..i])
        invariant forall k :: 0 < k <= i ==> !Complete(ips, blank, inbox, k)
      {
        RecordOneMore(ips, blank, inbox, i);
        HandleMessage(inbox[i]);
        read := i + 1;
        var allReported := HaveAllReported();
        if allReported {
          return true, read;
        }
      }
      return false, read;
    }

    /** The peers, and the positions they were taken from. */
    method FilterPeers(me: string) returns (peers: seq<Node>, ghost at: seq<nat>)
      ensures peers == Sequences.Filter(nodes, OtherThan(me))
      ensures |at| == |peers|
      ensures forall i, j :: 0 <= i < j < |at| ==> at[i] < at[j]
      ensures forall i :: 0 <= i < |at| ==> at[i] < |nodes| && peers[i] == nodes[at[i]]
      ensures forall k :: 0 <= k < |nodes| ==> (k in at <==> nodes[k].hostname != me)
    {
      peers, at := [], [];
      for i := 0 to |nodes|
        invariant peers == Sequences.Filter(nodes[..i], OtherThan(me))
        invariant |at| == |peers|
        invariant forall a, b :: 0 <= a < b < |at| ==> at[a] < at[b]
        invariant forall a :: 0 <= a < |at| ==> at[a] < i && peers[a] == nodes[at[a]]
        invariant forall k :: 0 <= k < i ==> (k in at <==> nodes[k].hostname != me)
      {
        Sequences.TakeSnoc(nodes, i + 1);
        Sequences.FilterSnoc(nodes[..i], nodes[i], OtherThan(me));
        if !nodes[i].IsThisServer(me) {
          peers, at := peers + [nodes[i]], at + [i];
        }
      }
      assert nodes[..|nodes|] == nodes;
    }

    /** The choice in the "peers pingable" workflow: the first server with the greatest number, or
        nothing when some server has not reported or the greatest number is the "running" marker. */
    method HighestSeqnoNode() returns (r: Option<nat>)
      requires |nodes| > 0
      ensures r.Some? ==> Chosen(View(), r.value)
      ensures r.None? ==> forall w :: !Chosen(View(), w)
    {
      var highest := 0;
      for i := 0 to |nodes|
        invariant highest < |nodes|
        invariant forall k :: 0 <= k < i ==> nodes[k].seqno != DEFAULT_SEQNO
        invariant forall k :: 0 <= k < i ==> nodes[k].seqno <= nodes[highest].seqno
        invariant forall k :: 0 <= k < highest ==> nodes[k].seqno < nodes[highest].seqno
      {
        if nodes[i].seqno == DEFAULT_SEQNO {
          assert View()[i] == DEFAULT_SEQNO;
          return None;
        }
        if nodes[i].seqno > nodes[highest].seqno {
          highest := i;
        }
      }
      assert IsFirstHighest(View(), highest);
      if nodes[highest].seqno == RUNNING_SEQNO {
        forall w | Chosen(View(), w)
          ensures false
        {
          FirstHighestUnique(View(), highest, w);
        }
        return None;
      }
      return Some(highest);
    }

    /** The choice in the "peer DB available" workflow. */
    method AvailablePeer(me: string) returns (r: Node?, ghost p: nat)
      ensures r != null ==> IsFirstAvailablePeer(Hosts(), Seen(), me, p) && r == nodes[p]
      ensures r == null ==> forall k :: 0 <= k < |nodes| && Hosts()[k] != me ==> !Seen()[k]
    {
      var peers;
      ghost var at;
      peers, at := FilterPeers(me);
      for i := 0 to |peers|
        invariant forall a :: 0 <= a < i ==> !peers[a].dbAvailable
      {
        if peers[i].dbAvailable {
          return peers[i], at[i];
        }
      }
      return null, 0;
    }
  }
}
