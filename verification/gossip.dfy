/**
 How far a payment spreads: from its sender to every neighbour whose connection
 has carried what was put on it.
 */
module Gossip {
  import opened Machine
  import opened Records
  import opened Chains
  import opened Protocol
  import opened Wire
  import opened Handlers
  import opened Network
  import opened Honest
  import opened Sequential

  /** The payment is still on its way to the other end of connection `c`: `u` is
      yet to send it, or it has been sent and not been read. */
  predicate Pending(s: Net, u: nat, c: nat, tx: Tx) {
    && u < |s.peers| && c < |s.channels| && c in s.peers[u].table
    && (Spread(tx) in s.peers[u].jobs || Ok(NewTx(tx)) in s.channels[c].queue)
  }

  /** The step reads the payment at the other end of `c`. */
  predicate Reads(s: Net, a: Action, c: nat, tx: Tx) {
    a == Deliver(c) && MayRead(s, c) && s.channels[c].queue[0] == Ok(NewTx(tx))
  }

  /** No step loses a payment that is pending, but the one that reads it. */
  lemma StaysPending(sha: Hasher, s: Net, a: Action, u: nat, c: nat, tx: Tx)
    requires Shaped(s) && Enabled(sha, s, a) && Pending(s, u, c, tx) && s.wire(NewTx(tx)) == [Ok(NewTx(tx))]
    ensures Reads(s, a, c, tx) || Pending(Next(sha, s, a), u, c, tx)
  {
    hide Next, After, Posts, Shaped, Accepts, ChainValid;
    var t := Next(sha, s, a);
    PeersStay(sha, s, a);
    TableGrows(sha, s, a, u);
    assert c in t.peers[u].table;
    QueueStays(sha, s, a, c);
    if Spread(tx) in s.peers[u].jobs {
      JobWaits(sha, s, a, u, Spread(tx));
      if Spread(tx) !in t.peers[u].jobs { SpreadIsSent(sha, s, a, u, c, tx); }
    } else if Ok(NewTx(tx)) !in t.channels[c].queue {
      LineHandled(sha, s, c);
    }
  }

  lemma TableGrows(sha: Hasher, s: Net, a: Action, u: nat)
    requires Enabled(sha, s, a) && u < |s.peers|
    ensures u < |Next(sha, s, a).peers| && s.peers[u].table <= Next(sha, s, a).peers[u].table
  {
    hide Effect, Payment;
  }

  /** A line leaves its queue only when it is read. */
  lemma QueueStays(sha: Hasher, s: Net, a: Action, c: nat)
    requires Enabled(sha, s, a) && c < |s.channels|
    ensures c < |Next(sha, s, a).channels|
    ensures var q := Next(sha, s, a).channels[c].queue;
            forall l | l in s.channels[c].queue :: l in q || (a == Deliver(c) && l == s.channels[c].queue[0])
  {
    hide After, Posts;
    SendAllFrame(s.wire, Links(s, a), Posts(sha, s, a), c);
    if a == Deliver(c) {
      var queue := s.channels[c].queue;
      assert queue == [queue[0]] + queue[1..];
    }
  }

  lemma JobWaits(sha: Hasher, s: Net, a: Action, u: nat, job: Job)
    requires Enabled(sha, s, a) && u < |s.peers| && job in s.peers[u].jobs
    ensures u < |Next(sha, s, a).peers|
    ensures job in Next(sha, s, a).peers[u].jobs || (a.Work? && a.u == u && s.peers[u].jobs[a.j] == job)
  {
    hide Effect, Payment;
    if a.Work? && a.u == u {
      var jobs := s.peers[u].jobs;
      assert jobs == jobs[..a.j] + [jobs[a.j]] + jobs[a.j + 1..];
    }
  }

  lemma SpreadIsSent(sha: Hasher, s: Net, a: Action, u: nat, c: nat, tx: Tx)
    requires Enabled(sha, s, a) && a.Work? && a.u == u < |s.peers| && s.peers[u].jobs[a.j] == Spread(tx)
    requires c in s.peers[u].table && c < |s.channels| && s.wire(NewTx(tx)) == [Ok(NewTx(tx))]
    ensures c < |Next(sha, s, a).channels| && Ok(NewTx(tx)) in Next(sha, s, a).channels[c].queue
  {
    BroadcastReaches(s.peers[u].table, None, NewTx(tx), (c, NewTx(tx)));
    SendAllFrame(s.wire, Links(s, a), Posts(sha, s, a), c);
    assert Ok(NewTx(tx)) in s.wire(NewTx(tx));
  }

  /** Step `k` of the run reads the payment at the other end of `c`. */
  ghost predicate ReadAt(sha: Hasher, s: Net, run: seq<Action>, k: nat, c: nat, tx: Tx) {
    k < |run| && IsRun(sha, s, run[..k]) && Reads(Final(sha, s, run[..k]), run[k], c, tx)
  }

  /** When nothing of it is left on the way, some step has read it. */
  lemma {:induction false} PaymentIsRead(sha: Hasher, s: Net, run: seq<Action>, u: nat, c: nat, tx: Tx) returns (k: nat)
    requires Shaped(s) && IsRun(sha, s, run) && s.wire(NewTx(tx)) == [Ok(NewTx(tx))]
    requires Pending(s, u, c, tx) && !Pending(Final(sha, s, run), u, c, tx)
    ensures ReadAt(sha, s, run, k, c, tx)
    decreases |run|
  {
    hide Next, Shaped, Enabled, Pending, Reads;
    if Reads(s, run[0], c, tx) {
      k := 0;
      assert run[..0] == [];
    } else {
      StaysPending(sha, s, run[0], u, c, tx);
      ShapeKept(sha, s, run[0]);
      PeersStay(sha, s, run[0]);
      k := PaymentIsRead(sha, Next(sha, s, run[0]), run[1..], u, c, tx);
      k := k + 1;
      assert run[..k][1..] == run[1..][..k - 1];
    }
  }

  lemma PoolGrows(sha: Hasher, s: Net, a: Action, v: nat)
    requires Enabled(sha, s, a) && v < |s.peers| && a != Collect(v)
    ensures v < |Next(sha, s, a).peers| && s.peers[v].pool <= Next(sha, s, a).peers[v].pool
  {
    hide Payment, Accepts, ChainValid;
  }

  /** A pending payment stays in a mempool until its node mines. */
  lemma {:induction false} StaysPooled(sha: Hasher, s: Net, run: seq<Action>, v: nat, tx: Tx)
    requires IsRun(sha, s, run) && v < |s.peers| && tx in s.peers[v].pool && Collect(v) !in run
    ensures v < |Final(sha, s, run).peers| && tx in Final(sha, s, run).peers[v].pool
    decreases |run|
  {
    hide Next, Enabled;
    if run != [] {
      PoolGrows(sha, s, run[0], v);
      assert forall i | 0 <= i < |s.peers[v].pool| :: Next(sha, s, run[0]).peers[v].pool[i] == s.peers[v].pool[i];
      StaysPooled(sha, Next(sha, s, run[0]), run[1..], v, tx);
    }
  }

  lemma {:induction false} RunSplits(sha: Hasher, s: Net, run: seq<Action>, k: nat)
    requires IsRun(sha, s, run) && k < |run|
    ensures IsRun(sha, s, run[..k]) && Enabled(sha, Final(sha, s, run[..k]), run[k])
    ensures var t := Next(sha, Final(sha, s, run[..k]), run[k]);
            IsRun(sha, t, run[k + 1..]) && Final(sha, t, run[k + 1..]) == Final(sha, s, run)
    decreases |run|
  {
    hide Next, Enabled;
    if k == 0 {
      assert run[..0] == [];
    } else {
      RunSplits(sha, Next(sha, s, run[0]), run[1..], k - 1);
      assert run[..k][1..] == run[1..][..k - 1] && run[1..][k..] == run[k + 1..];
    }
  }

  /** What came of a payment that was read at step `k`. */
  ghost predicate Arrived(sha: Hasher, s: Net, run: seq<Action>, k: nat, v: nat, tx: Tx)
    requires IsRun(sha, s, run)
  {
    && k < |run| && IsRun(sha, s, run[..k])
    && v < |Final(sha, s, run[..k]).peers| && v < |Final(sha, s, run).peers|
    && (|Final(sha, s, run[..k]).peers[v].pool| >= 100
        || tx in Final(sha, s, run).peers[v].pool
        || Collect(v) in run[k + 1..])
  }

  /**
   Gossip. A payment that waits to be broadcast gets to every neighbour: once it
   is broadcast and the neighbour's queue is empty, whatever else went on, the
   neighbour has read it; and then it is in the neighbour's mempool, unless that
   was full at the time or has been emptied by mining since.
   */
  lemma PaymentsReachNeighbours(sha: Hasher, s: Net, run: seq<Action>, u: nat, c: nat, tx: Tx) returns (k: nat)
    requires Shaped(s) && IsRun(sha, s, run) && SendableTx(tx)
    requires u < |s.peers| && Spread(tx) in s.peers[u].jobs && c in s.peers[u].table
    requires var t := Final(sha, s, run);
             u < |t.peers| && c < |t.channels| && Spread(tx) !in t.peers[u].jobs && t.channels[c].queue == []
    ensures c < |s.channels| && ReadAt(sha, s, run, k, c, tx)
    ensures Arrived(sha, s, run, k, s.channels[c].dst, tx)
  {
    hide Next, Enabled, IsRun, Final, SendableTx, Reading;
    assert PeerShaped(s, u) && OwnsLink(s, u, c);
    ShortArrives(NewTx(tx));
    ShapedReads(s, NewTx(tx));
    k := PaymentIsRead(sha, s, run, u, c, tx);
    RunSplits(sha, s, run, k);
    var before := Final(sha, s, run[..k]);
    LinksLast(sha, s, run[..k], c);
    LineHandled(sha, before, c);
    var after, v := Next(sha, before, run[k]), s.channels[c].dst;
    if |before.peers[v].pool| < 100 && Collect(v) !in run[k + 1..] {
      assert after.peers[v].pool == before.peers[v].pool + [tx];
      StaysPooled(sha, after, run[k + 1..], v, tx);
    }
    PeersLast(sha, after, run[k + 1..]);
  }

  lemma {:induction false} LinksLast(sha: Hasher, s: Net, run: seq<Action>, c: nat)
    requires IsRun(sha, s, run) && c < |s.channels|
    ensures c < |Final(sha, s, run).channels| && Final(sha, s, run).channels[c].dst == s.channels[c].dst
    decreases |run|
  {
    hide Next, Enabled;
    if run != [] {
      LinkLasts(sha, s, run[0], c);
      LinksLast(sha, Next(sha, s, run[0]), run[1..], c);
    }
  }

  lemma LinkLasts(sha: Hasher, s: Net, a: Action, c: nat)
    requires Enabled(sha, s, a) && c < |s.channels|
    ensures c < |Next(sha, s, a).channels| && Next(sha, s, a).channels[c].dst == s.channels[c].dst
  {
    SendAllFrame(s.wire, Links(s, a), Posts(sha, s, a), c);
  }

  lemma {:induction false} PeersLast(sha: Hasher, s: Net, run: seq<Action>)
    requires IsRun(sha, s, run)
    ensures |Final(sha, s, run).peers| == |s.peers|
    decreases |run|
  {
    hide Next, Enabled;
    if run != [] {
      PeersStay(sha, s, run[0]);
      PeersLast(sha, Next(sha, s, run[0]), run[1..]);
    }
  }
}
