/**
 A new block floods a quiet network: relaying to everybody but the sender is
 enough for every node to end with it. Adopting a chain from a response does
 not relay, and there the flood stops.
 */
module Flood {
  import opened Machine
  import opened Records
  import opened Blocks
  import opened Chains
  import opened Protocol
  import opened Wire
  import opened Handlers
  import opened Network
  import opened Honest
  import opened ClearNet
  import opened Quiescence
  import opened Tidy
  import Consensus

  // The network before and during the flood

  /** Both ends of every connection have each other in their tables. */
  predicate AllAccepted(s: Net) {
    forall c: nat | c < |s.channels| :: s.channels[c].src < |s.peers| && c in s.peers[s.channels[c].src].table
  }

  /** Nothing is on its way and nothing is pending. */
  ghost predicate Quiet(s: Net) {
    && Shaped(s) && AllAccepted(s)
    && (forall u: nat | u < |s.peers| :: s.peers[u].jobs == [])
    && (forall c: nat | c < |s.channels| :: s.channels[c].queue == [])
  }

  /** The chains that the nodes hold. */
  function ChainsOf(s: Net): (r: seq<Held>)
    ensures |r| == |s.peers|
  {
    seq(|s.peers|, u requires 0 <= u < |s.peers| => s.peers[u].chain)
  }

  /** The channels of a path from `u` to `v` through nodes that held `base`. */
  predicate IsPath(s: Net, init: seq<Held>, base: Held, u: nat, v: nat, path: seq<nat>)
    decreases |path|
  {
    && u < |init| && init[u] == base
    && if path == [] then u == v
       else path[0] < |s.channels| && s.channels[path[0]].src == u
            && IsPath(s, init, base, s.channels[path[0]].dst, v, path[1..])
  }

  ghost predicate Reaches(s: Net, init: seq<Held>, base: Held, u: nat, v: nat) {
    exists path :: IsPath(s, init, base, u, v, path)
  }

  /** `u` holds the flooded chain. */
  predicate Has(s: Net, u: nat, chain: seq<Block>) { u < |s.peers| && s.peers[u].chain == chain }

  /** Messages of the flood: the block, and transactions sent meanwhile. */
  predicate FloodMsg(s: Net, chain: seq<Block>, c: nat, m: Msg)
    requires chain != [] && c < |s.channels|
  {
    match m
    case NewBlock(block) => block == chain[|chain| - 1] && Has(s, s.channels[c].src, chain)
    case NewTx(tx) => SendableTx(tx)
    case _ => false
  }

  /** And how they are read. */
  predicate FloodLine(s: Net, chain: seq<Block>, c: nat, l: Heard)
    requires chain != [] && c < |s.channels|
  {
    l.Ok? &&
    match l.value
    case NewBlock(block) => block == chain[|chain| - 1] && Has(s, s.channels[c].src, chain)
    case NewTx(_) => true
    case _ => false
  }

  /** A relay leaves out only a peer that has the block. */
  predicate FloodJob(s: Net, chain: seq<Block>, u: nat, job: Job)
    requires chain != []
  {
    match job
    case Relay(block, except) =>
      && block == chain[|chain| - 1] && Has(s, u, chain)
      && (except.Some? ==> except.value < |s.channels| && Has(s, s.channels[except.value].dst, chain))
    case Spread(tx) => SendableTx(tx)
    case _ => false
  }

  /** The block is on its way along `c`, or will be. */
  predicate UnderWay(s: Net, block: Block, c: nat)
    requires c < |s.channels| && s.channels[c].src < |s.peers|
  {
    || Ok(NewBlock(block)) in s.channels[c].queue
    || exists job :: job in s.peers[s.channels[c].src].jobs && job.Relay? && job.block == block && job.except != Some(c)
  }

  /** The key: when a node has the block, each neighbour who held its parent has
      it or will be sent it. */
  predicate Covered(s: Net, init: seq<Held>, base: Held, block: Block, c: nat)
    requires c < |s.channels| && s.channels[c].src < |s.peers|
  {
    Has(s, s.channels[c].src, base + [block]) && s.channels[c].dst < |init| && init[s.channels[c].dst] == base ==>
      Has(s, s.channels[c].dst, base + [block]) || UnderWay(s, block, c)
  }

  /** The message is read as it was printed. */
  predicate Intact(s: Net, m: Msg) { s.wire(m) == [Ok(m)] }

  /** A node whose user is not mining, and pays in transactions that can be sent. */
  predicate Calm(p: Peer) {
    CleanText(p.addr) && (p.errand.Idle? || (p.errand.Paying? && SendableTx(p.errand.tx)))
  }

  /** While `block` floods; `init` are the chains held before. */
  ghost predicate Flooding(sha: Hasher, s: Net, init: seq<Held>, base: Held, block: Block) {
    && Shaped(s) && AllAccepted(s) && |init| == |s.peers| && OnlyBehind(sha, init, base, block)
    && Intact(s, NewBlock(block))
    && (forall u: nat | u < |s.peers| :: PeerFloods(s, init, base, block, u))
    && (forall c: nat | c < |s.channels| :: Covered(s, init, base, block, c))
    && (forall c: nat | c < |s.channels| :: forall l | l in s.channels[c].queue :: FloodLine(s, base + [block], c, l))
  }

  /** Of the chains held before, the block fits only behind the one it was mined for. */
  predicate OnlyBehind(sha: Hasher, init: seq<Held>, base: Held, block: Block) {
    Accepts(sha, base, block) && forall c | c in init && Accepts(sha, c, block) :: c == base
  }

  predicate PeerFloods(s: Net, init: seq<Held>, base: Held, block: Block, u: nat)
    requires u < |s.peers|
  {
    && |init| == |s.peers| && Calm(s.peers[u])
    && (s.peers[u].chain == init[u] || (init[u] == base && s.peers[u].chain == base + [block]))
    && forall job | job in s.peers[u].jobs :: FloodJob(s, base + [block], u, job)
  }

  /** What may happen meanwhile. */
  predicate InFlood(a: Action) { IsTraffic(a) || a.Submit? || (a.Check? && TidyPayment(a)) }

  lemma ReverseTwice(c: nat)
    ensures Reverse(Reverse(c)) == c
  {
  }

  /** A block that was added is not accepted again. */
  lemma AcceptedOnce(sha: Hasher, base: Held, block: Block)
    requires Accepts(sha, base, block)
    ensures !Accepts(sha, base + [block], block)
  {
    hide LinkValid;
    assert ToU32(block.index + 1) != block.index by {
      if block.index + 1 == TWO_32 { assert ToU32(block.index + 1) == 0; }
    }
    assert (base + [block])[|base + [block]| - 1] == block;
  }

  lemma EndsStay(sha: Hasher, s: Net, a: Action, c: nat)
    requires Enabled(sha, s, a) && InFlood(a) && c < |s.channels|
    ensures var t := Next(sha, s, a);
            && |t.channels| == |s.channels|
            && t.channels[c].src == s.channels[c].src && t.channels[c].dst == s.channels[c].dst
            && Links(s, a)[c].queue <= t.channels[c].queue
            && (forall m, l | (c, m) in Posts(sha, s, a) && l in s.wire(m) :: l in t.channels[c].queue)
  {
    hide Posts, After;
    SendAllFrame(s.wire, Links(s, a), Posts(sha, s, a), c);
  }

  // What the actor does

  lemma FloodArrives(s: Net, chain: seq<Block>, c: nat, m: Msg)
    requires Shaped(s) && chain != [] && Intact(s, NewBlock(chain[|chain| - 1]))
    requires c < |s.channels| && FloodMsg(s, chain, c, m)
    ensures Intact(s, m) && FloodLine(s, chain, c, Ok(m))
  {
    hide SendableTx, Reading;
    if m.NewTx? {
      ShortArrives(m);
      ShapedReads(s, m);
    }
  }

  lemma FloodDelivery(sha: Hasher, s: Net, init: seq<Held>, base: Held, block: Block, a: Action)
    requires Flooding(sha, s, init, base, block) && Enabled(sha, s, a) && a.Deliver?
    ensures var l, p, q := s.channels[a.c].queue[0], s.peers[s.channels[a.c].dst], After(sha, s, a);
            && Posts(sha, s, a) == [] && q.table == p.table && q.errand == p.errand
            && l.Ok? && (l.value.NewTx? || (l == Ok(NewBlock(block)) && Has(s, s.channels[a.c].src, base + [block])))
            && (if l.value.NewBlock? && p.chain == base then
                  q.chain == base + [block] && q.jobs == p.jobs + [Relay(block, Some(Reverse(a.c)))]
                else q.chain == p.chain && q.jobs == p.jobs)
  {
    hide Accepts, Shaped, SendableTx;
    var v := s.channels[a.c].dst;
    var l, p := s.channels[a.c].queue[0], s.peers[v];
    assert l in s.channels[a.c].queue && init[v] in init;
    assert FloodLine(s, base + [block], a.c, l) && PeerFloods(s, init, base, block, v);
    AcceptedOnce(sha, base, block);
    assert p.jobs + [] == p.jobs;
  }

  lemma PaymentIsSendable(sha: Hasher, p: Peer, a: Action)
    requires a.Check? && TidyPayment(a) && CleanText(p.addr)
    ensures SendableTx(Payment(sha, p, a))
  {
    hide TidyPayment, Payment, CleanText, SendableTx;
    PaymentIsTidy(sha, p, a);
  }

  lemma ChainsInFlood(sha: Hasher, s: Net, init: seq<Held>, base: Held, block: Block, a: Action)
    requires Flooding(sha, s, init, base, block) && Enabled(sha, s, a) && InFlood(a)
    ensures var p, q := s.peers[Actor(s, a)], After(sha, s, a);
            && q.table == p.table && Calm(q)
            && (q.chain == p.chain || (a.Deliver? && p.chain == base && q.chain == base + [block]
                                       && s.channels[a.c].queue[0] == Ok(NewBlock(block))))
  {
    hide Accepts, Shaped, Payment, SendableTx, TidyPayment, CleanText;
    assert PeerFloods(s, init, base, block, Actor(s, a));
    if a.Check? { PaymentIsSendable(sha, s.peers[a.u], a); }
    if a.Deliver? { FloodDelivery(sha, s, init, base, block, a); }
  }

  /** Nobody loses the block. */
  lemma StillHas(sha: Hasher, s: Net, init: seq<Held>, base: Held, block: Block, a: Action, u: nat)
    requires Flooding(sha, s, init, base, block) && Enabled(sha, s, a) && InFlood(a)
    requires Has(s, u, base + [block])
    ensures Has(Next(sha, s, a), u, base + [block])
  {
    hide After, Flooding, Next;
    ChainsInFlood(sha, s, init, base, block, a);
    PeersStay(sha, s, a);
  }

  lemma JobStaysInFlood(sha: Hasher, s: Net, init: seq<Held>, base: Held, block: Block, a: Action, u: nat, job: Job)
    requires Flooding(sha, s, init, base, block) && Enabled(sha, s, a) && InFlood(a)
    requires FloodJob(s, base + [block], u, job)
    ensures FloodJob(Next(sha, s, a), base + [block], u, job)
  {
    hide Flooding, Next, Enabled;
    if job.Relay? {
      StillHas(sha, s, init, base, block, a, u);
      if job.except.Some? {
        EndsStay(sha, s, a, job.except.value);
        StillHas(sha, s, init, base, block, a, s.channels[job.except.value].dst);
      }
    }
  }

  lemma LineStaysInFlood(sha: Hasher, s: Net, init: seq<Held>, base: Held, block: Block, a: Action, c: nat, l: Heard)
    requires Flooding(sha, s, init, base, block) && Enabled(sha, s, a) && InFlood(a)
    requires c < |s.channels| && FloodLine(s, base + [block], c, l) && c < |Next(sha, s, a).channels|
    ensures FloodLine(Next(sha, s, a), base + [block], c, l)
  {
    hide Flooding, Next, Enabled;
    EndsStay(sha, s, a, c);
    if l.value.NewBlock? { StillHas(sha, s, init, base, block, a, s.channels[c].src); }
  }

  /** The one who delivered the block is where the reverse channel leads. */
  lemma ReverseLeadsBack(s: Net, c: nat)
    requires Shaped(s) && c < |s.channels|
    ensures Reverse(c) < |s.channels| && s.channels[Reverse(c)].dst == s.channels[c].src
  {
    assert LinkShaped(s, c);
    assert LinkShaped(s, Reverse(c));
    ReverseTwice(c);
  }

  lemma ActorFloods(sha: Hasher, s: Net, init: seq<Held>, base: Held, block: Block, a: Action)
    requires Flooding(sha, s, init, base, block) && Enabled(sha, s, a) && InFlood(a)
    ensures PeerFloods(Next(sha, s, a), init, base, block, Actor(s, a))
  {
    hide Next, Shaped, Accepts, FloodJob, Payment;
    var t, u := Next(sha, s, a), Actor(s, a);
    var p, q, chain := s.peers[u], After(sha, s, a), base + [block];
    assert PeerFloods(s, init, base, block, u);
    PeersStay(sha, s, a);
    ChainsInFlood(sha, s, init, base, block, a);
    forall job | job in q.jobs ensures FloodJob(t, chain, u, job) {
      if job in p.jobs {
        JobStaysInFlood(sha, s, init, base, block, a, u, job);
      } else if a.Submit? {
        assert job == Spread(p.errand.tx);
        SpreadFloods(t, chain, u, job);
      } else {
        FloodDelivery(sha, s, init, base, block, a);
        ReverseLeadsBack(s, a.c);
        EndsStay(sha, s, a, Reverse(a.c));
        StillHas(sha, s, init, base, block, a, s.channels[a.c].src);
        RelayFloods(t, chain, u, block, Reverse(a.c));
      }
    }
  }

  lemma SpreadFloods(s: Net, chain: seq<Block>, u: nat, job: Job)
    requires chain != [] && job.Spread? && SendableTx(job.tx)
    ensures FloodJob(s, chain, u, job)
  {
  }

  lemma RelayFloods(s: Net, chain: seq<Block>, u: nat, block: Block, except: nat)
    requires chain != [] && block == chain[|chain| - 1] && Has(s, u, chain)
    requires except < |s.channels| && Has(s, s.channels[except].dst, chain)
    ensures FloodJob(s, chain, u, Relay(block, Some(except)))
  {
  }

  lemma PostsFlood(sha: Hasher, s: Net, init: seq<Held>, base: Held, block: Block, a: Action, post: Post)
    requires Flooding(sha, s, init, base, block) && Enabled(sha, s, a) && InFlood(a) && post in Posts(sha, s, a)
    ensures post.0 < |s.channels| && FloodMsg(s, base + [block], post.0, post.1)
  {
    hide Accepts, After, Next;
    if a.Deliver? {
      FloodDelivery(sha, s, init, base, block, a);
    } else if a.Work? {
      var p, job := s.peers[a.u], s.peers[a.u].jobs[a.j];
      assert PeerFloods(s, init, base, block, a.u) && job in p.jobs && PeerShaped(s, a.u);
      match job
      case Relay(b, except) => BroadcastReaches(p.table, except, NewBlock(b), post);
      case Spread(tx) => BroadcastReaches(p.table, None, NewTx(tx), post);
      case _ =>
    }
  }

  // Coverage

  /** A relay that is carried out leaves a message on every channel it covers. */
  lemma RelayedStaysUnderWay(sha: Hasher, s: Net, init: seq<Held>, base: Held, block: Block, a: Action, c: nat)
    requires Flooding(sha, s, init, base, block) && Enabled(sha, s, a) && a.Work?
    requires c < |s.channels| && s.channels[c].src < |s.peers| && UnderWay(s, block, c)
    requires c < |Next(sha, s, a).channels| && Next(sha, s, a).channels[c].src < |Next(sha, s, a).peers|
    ensures UnderWay(Next(sha, s, a), block, c)
  {
    hide Shaped, Accepts, PeerFloods, Covered, FloodLine, Next;
    var t, u := Next(sha, s, a), s.channels[c].src;
    EndsStay(sha, s, a, c);
    PeersStay(sha, s, a);
    if Ok(NewBlock(block)) !in s.channels[c].queue {
      var job :| job in s.peers[u].jobs && job.Relay? && job.block == block && job.except != Some(c);
      var p := s.peers[a.u];
      if u == a.u && p.jobs[a.j] == job {
        BroadcastReaches(p.table, job.except, NewBlock(block), (c, NewBlock(block)));
        assert c in p.table && Ok(NewBlock(block)) in s.wire(NewBlock(block));
      } else {
        assert job in t.peers[u].jobs;
      }
    }
  }

  lemma BaseOrBlock(sha: Hasher, s: Net, init: seq<Held>, base: Held, block: Block, u: nat)
    requires Flooding(sha, s, init, base, block) && u < |s.peers| && init[u] == base
    ensures s.peers[u].chain == base || s.peers[u].chain == base + [block]
  {
    assert PeerFloods(s, init, base, block, u);
  }

  /** A delivery either leaves the block under way or brings it where it goes. */
  lemma DeliveredOrUnderWay(sha: Hasher, s: Net, init: seq<Held>, base: Held, block: Block, a: Action, c: nat)
    requires Flooding(sha, s, init, base, block) && Enabled(sha, s, a) && InFlood(a) && !a.Work?
    requires c < |s.channels| && s.channels[c].dst < |init| && init[s.channels[c].dst] == base
    requires s.channels[c].src < |s.peers| && UnderWay(s, block, c)
    requires c < |Next(sha, s, a).channels| && Next(sha, s, a).channels[c].src < |Next(sha, s, a).peers|
    ensures UnderWay(Next(sha, s, a), block, c) || Has(Next(sha, s, a), s.channels[c].dst, base + [block])
  {
    hide Shaped, Accepts, PeerFloods, Covered, FloodLine, Next, Payment;
    var t, u := Next(sha, s, a), s.channels[c].src;
    EndsStay(sha, s, a, c);
    PeersStay(sha, s, a);
    if Ok(NewBlock(block)) in s.channels[c].queue {
      var queue := s.channels[c].queue;
      if a == Deliver(c) && queue[0] == Ok(NewBlock(block)) {
        FloodDelivery(sha, s, init, base, block, a);
        BaseOrBlock(sha, s, init, base, block, s.channels[c].dst);
      } else if a == Deliver(c) {
        assert queue == [queue[0]] + queue[1..];
      }
    } else {
      var job :| job in s.peers[u].jobs && job.Relay? && job.block == block && job.except != Some(c);
      assert job in t.peers[u].jobs;
    }
  }

  /** Who has just received the block will relay it, but to the sender, who has it. */
  lemma NewHolderCovers(sha: Hasher, s: Net, init: seq<Held>, base: Held, block: Block, a: Action, c: nat)
    requires Flooding(sha, s, init, base, block) && Enabled(sha, s, a) && InFlood(a)
    requires c < |s.channels| && c < |Next(sha, s, a).channels|
    requires s.channels[c].src < |s.peers| && Next(sha, s, a).channels[c].src < |Next(sha, s, a).peers|
    requires !Has(s, s.channels[c].src, base + [block]) && Has(Next(sha, s, a), s.channels[c].src, base + [block])
    ensures UnderWay(Next(sha, s, a), block, c) || Has(Next(sha, s, a), s.channels[c].dst, base + [block])
  {
    hide Shaped, Accepts, Covered, FloodLine, Next;
    var t, u := Next(sha, s, a), s.channels[c].src;
    EndsStay(sha, s, a, c);
    PeersStay(sha, s, a);
    ChainsInFlood(sha, s, init, base, block, a);
    FloodDelivery(sha, s, init, base, block, a);
    assert PeerFloods(s, init, base, block, u);
    if c == Reverse(a.c) {
      ReverseLeadsBack(s, a.c);
      StillHas(sha, s, init, base, block, a, s.channels[a.c].src);
    } else {
      assert Relay(block, Some(Reverse(a.c))) in t.peers[u].jobs;
    }
  }

  lemma StaysCovered(sha: Hasher, s: Net, init: seq<Held>, base: Held, block: Block, a: Action, c: nat)
    requires Flooding(sha, s, init, base, block) && Enabled(sha, s, a) && InFlood(a) && c < |s.channels|
    requires c < |Next(sha, s, a).channels| && Next(sha, s, a).channels[c].src < |Next(sha, s, a).peers|
    ensures Covered(Next(sha, s, a), init, base, block, c)
  {
    var t, chain := Next(sha, s, a), base + [block];
    assert s.channels[c].src < |s.peers| && Covered(s, init, base, block, c);
    hide Flooding, Next, Enabled, UnderWay;
    EndsStay(sha, s, a, c);
    var dst := s.channels[c].dst;
    if Has(t, s.channels[c].src, chain) && dst < |init| && init[dst] == base {
      if !Has(s, s.channels[c].src, chain) {
        NewHolderCovers(sha, s, init, base, block, a, c);
      } else if Has(s, s.channels[c].dst, chain) {
        StillHas(sha, s, init, base, block, a, s.channels[c].dst);
      } else if a.Work? {
        RelayedStaysUnderWay(sha, s, init, base, block, a, c);
      } else {
        DeliveredOrUnderWay(sha, s, init, base, block, a, c);
      }
    }
  }

  /** Every step of the flood keeps the invariant. */
  lemma FloodGoesOn(sha: Hasher, s: Net, init: seq<Held>, base: Held, block: Block, a: Action)
    requires Flooding(sha, s, init, base, block) && Enabled(sha, s, a) && InFlood(a)
    ensures Flooding(sha, Next(sha, s, a), init, base, block)
  {
    var t, chain := Next(sha, s, a), base + [block];
    ShapeKept(sha, s, a);
    TablesStay(sha, s, init, base, block, a);
    forall u: nat | u < |t.peers| ensures PeerFloods(t, init, base, block, u) {
      PeerGoesOn(sha, s, init, base, block, a, u);
    }
    hide Next, Shaped, Accepts, PeerFloods, Covered, FloodLine, Enabled, Posts, InFlood;
    forall c: nat | c < |t.channels| ensures Covered(t, init, base, block, c) {
      StaysCovered(sha, s, init, base, block, a, c);
    }
    forall c: nat, l | c < |t.channels| && l in t.channels[c].queue ensures FloodLine(t, chain, c, l) {
      QueueGoesOn(sha, s, init, base, block, a, c, l);
    }
  }

  lemma TablesStay(sha: Hasher, s: Net, init: seq<Held>, base: Held, block: Block, a: Action)
    requires Flooding(sha, s, init, base, block) && Enabled(sha, s, a) && InFlood(a)
    ensures |Next(sha, s, a).channels| == |s.channels| && AllAccepted(Next(sha, s, a))
  {
    hide Next, Shaped, Accepts, PeerFloods, Covered, FloodLine, Posts;
    var t := Next(sha, s, a);
    PeersStay(sha, s, a);
    ChainsInFlood(sha, s, init, base, block, a);
    ChannelsStay(sha, s, a);
    forall c: nat | c < |t.channels| ensures t.channels[c].src < |t.peers| && c in t.peers[t.channels[c].src].table {
      EndsStay(sha, s, a, c);
    }
  }

  lemma ChannelsStay(sha: Hasher, s: Net, a: Action)
    requires Enabled(sha, s, a) && InFlood(a)
    ensures |Next(sha, s, a).channels| == |s.channels|
  {
    hide Posts, After;
  }

  lemma PeerGoesOn(sha: Hasher, s: Net, init: seq<Held>, base: Held, block: Block, a: Action, u: nat)
    requires Flooding(sha, s, init, base, block) && Enabled(sha, s, a) && InFlood(a)
    requires u < |Next(sha, s, a).peers| == |s.peers|
    ensures PeerFloods(Next(sha, s, a), init, base, block, u)
  {
    hide Next, Shaped, Accepts, FloodJob, Covered, FloodLine;
    PeersStay(sha, s, a);
    if u == Actor(s, a) {
      ActorFloods(sha, s, init, base, block, a);
    } else {
      assert PeerFloods(s, init, base, block, u);
      forall job | job in s.peers[u].jobs ensures FloodJob(Next(sha, s, a), base + [block], u, job) {
        JobStaysInFlood(sha, s, init, base, block, a, u, job);
      }
    }
  }

  lemma QueueGoesOn(sha: Hasher, s: Net, init: seq<Held>, base: Held, block: Block, a: Action, c: nat, l: Heard)
    requires Flooding(sha, s, init, base, block) && Enabled(sha, s, a) && InFlood(a)
    requires c < |Next(sha, s, a).channels| && l in Next(sha, s, a).channels[c].queue
    ensures FloodLine(Next(sha, s, a), base + [block], c, l)
  {
    hide Next, Shaped, Accepts, PeerFloods, Covered, FloodMsg, FloodLine, Posts;
    MessagesComeFrom(sha, s, a, c);
    if m :| (c, m) in Posts(sha, s, a) && l in s.wire(m) {
      PostsFlood(sha, s, init, base, block, a, (c, m));
      FloodArrives(s, base + [block], c, m);
    } else {
      assert FloodLine(s, base + [block], c, l);
    }
    LineStaysInFlood(sha, s, init, base, block, a, c, l);
  }

  // From the first relay to silence

  /** What mining changes: the chain of the miner, and a relay to come. */
  lemma AfterMining(sha: Hasher, s: Net, a: Action)
    requires Enabled(sha, s, a) && a.Finish? && Mines(sha, s, a)
    ensures var t, p := Next(sha, s, a), s.peers[a.u];
            && t.channels == s.channels && t.wire == s.wire
            && t.peers == s.peers[a.u := p.(chain := p.chain + [a.block], errand := Idle,
                                            jobs := p.jobs + [Relay(a.block, None)])]
  {
    hide Accepts, MinedFrom;
  }

  /** A miner who finishes in a quiet network starts a flood. */
  lemma MiningStartsFlood(sha: Hasher, s: Net, a: Action)
    requires a.Finish? && HasActor(s, a) && Intact(s, NewBlock(a.block))
    requires CleanText(s.peers[a.u].addr) && forall u: nat | u < |s.peers| && u != a.u :: Calm(s.peers[u])
    requires OnlyBehind(sha, ChainsOf(s), s.peers[a.u].chain, a.block)
    requires s.peers[a.u].chain + [a.block] !in ChainsOf(s)
    requires Quiet(s) && Enabled(sha, s, a) && Mines(sha, s, a)
    ensures Flooding(sha, Next(sha, s, a), ChainsOf(s), s.peers[a.u].chain, a.block)
  {
    hide Accepts, MinedFrom, Shaped, Next, Mines;
    var t, init, base := Next(sha, s, a), ChainsOf(s), s.peers[a.u].chain;
    ShapeKept(sha, s, a);
    AfterMining(sha, s, a);
    forall u: nat | u < |t.peers| ensures PeerFloods(t, init, base, a.block, u) {
      if u == a.u { assert t.peers[u].jobs == [Relay(a.block, None)]; }
    }
    forall c: nat | c < |t.channels| ensures Covered(t, init, base, a.block, c) {
      var v := t.channels[c].src;
      if v == a.u {
        assert Relay(a.block, None) in t.peers[v].jobs;
      } else {
        assert init[v] in init && t.peers[v].chain == init[v];
      }
    }
  }

  predicate SameLinks(s: Net, t: Net) {
    && |s.peers| == |t.peers| && |s.channels| == |t.channels|
    && forall c | 0 <= c < |s.channels| ::
         s.channels[c].src == t.channels[c].src && s.channels[c].dst == t.channels[c].dst
  }

  lemma LinksStayInFlood(sha: Hasher, s: Net, init: seq<Held>, base: Held, block: Block, a: Action)
    requires Flooding(sha, s, init, base, block) && Enabled(sha, s, a) && InFlood(a)
    ensures SameLinks(s, Next(sha, s, a))
  {
    hide Next, Flooding;
    PeersStay(sha, s, a);
    ChannelsStay(sha, s, a);
    forall c: nat | c < |s.channels| { EndsStay(sha, s, a, c); }
  }

  lemma {:induction false} PathStays(s: Net, t: Net, init: seq<Held>, base: Held, u: nat, v: nat, path: seq<nat>)
    requires SameLinks(s, t) && IsPath(s, init, base, u, v, path)
    ensures IsPath(t, init, base, u, v, path)
    decreases |path|
  {
    if path != [] { PathStays(s, t, init, base, s.channels[path[0]].dst, v, path[1..]); }
  }

  lemma ReachStays(s: Net, t: Net, init: seq<Held>, base: Held, u: nat, v: nat)
    requires SameLinks(s, t) && Reaches(s, init, base, u, v)
    ensures Reaches(t, init, base, u, v)
  {
    var path :| IsPath(s, init, base, u, v, path);
    PathStays(s, t, init, base, u, v, path);
  }

  lemma {:induction false} PathGrows(s: Net, init: seq<Held>, base: Held, u: nat, path: seq<nat>, c: nat)
    requires c < |s.channels| && IsPath(s, init, base, u, s.channels[c].src, path)
    requires s.channels[c].dst < |init| && init[s.channels[c].dst] == base
    ensures IsPath(s, init, base, u, s.channels[c].dst, path + [c])
    decreases |path|
  {
    if path == [] {
      assert [c][1..] == [];
      assert path + [c] == [c];
    } else {
      assert (path + [c])[1..] == path[1..] + [c];
      PathGrows(s, init, base, s.channels[path[0]].dst, path[1..], c);
    }
  }

  /** The block has come only where a path leads. */
  ghost predicate Reached(s: Net, init: seq<Held>, base: Held, block: Block, u: nat) {
    forall v: nat | Has(s, v, base + [block]) :: Reaches(s, init, base, u, v)
  }

  lemma StaysReached(sha: Hasher, s: Net, init: seq<Held>, base: Held, block: Block, u: nat, a: Action)
    requires Flooding(sha, s, init, base, block) && Enabled(sha, s, a) && InFlood(a)
    requires Reached(s, init, base, block, u)
    ensures Reached(Next(sha, s, a), init, base, block, u)
  {
    hide Next, Shaped, Accepts, Covered, Reaches, InFlood;
    var t, w := Next(sha, s, a), Actor(s, a);
    PeersStay(sha, s, a);
    LinksStayInFlood(sha, s, init, base, block, a);
    ChainsInFlood(sha, s, init, base, block, a);
    forall v: nat | Has(t, v, base + [block]) ensures Reaches(t, init, base, u, v) {
      if !Has(s, v, base + [block]) {
        FloodDelivery(sha, s, init, base, block, a);
        assert PeerFloods(s, init, base, block, w);
        StepReaches(s, init, base, u, a.c);
      }
      ReachStays(s, t, init, base, u, v);
    }
  }

  lemma StepReaches(s: Net, init: seq<Held>, base: Held, u: nat, c: nat)
    requires c < |s.channels| && Reaches(s, init, base, u, s.channels[c].src)
    requires s.channels[c].dst < |init| && init[s.channels[c].dst] == base
    ensures Reaches(s, init, base, u, s.channels[c].dst)
  {
    var path :| IsPath(s, init, base, u, s.channels[c].src, path);
    PathGrows(s, init, base, u, path, c);
  }

  /** Silence in the flood: no message left and no job. */
  lemma SilenceIsEmpty(sha: Hasher, s: Net, init: seq<Held>, base: Held, block: Block)
    requires Flooding(sha, s, init, base, block) && Silent(sha, s)
    ensures forall c: nat | c < |s.channels| :: s.channels[c].queue == []
    ensures forall u: nat | u < |s.peers| :: s.peers[u].jobs == []
  {
    hide Accepts, Covered;
    forall c: nat | c < |s.channels| ensures s.channels[c].queue == [] {
      assert LinkShaped(s, c) && PeerFloods(s, init, base, block, s.channels[c].dst);
      if s.channels[c].queue != [] { assert s.channels[c].queue[0] in s.channels[c].queue; }
      assert !Enabled(sha, s, Deliver(c)) by { assert IsTraffic(Deliver(c)); }
    }
    forall u: nat | u < |s.peers| ensures s.peers[u].jobs == [] {
      assert PeerFloods(s, init, base, block, u);
      if s.peers[u].jobs != [] {
        assert s.peers[u].jobs[0] in s.peers[u].jobs;
        assert !Enabled(sha, s, Work(u, 0)) by { assert IsTraffic(Work(u, 0)); }
      }
    }
  }

  /** Then the block is wherever a path leads from who has it. */
  lemma {:induction false} PathCarries(sha: Hasher, s: Net, init: seq<Held>, base: Held, block: Block,
                                       u: nat, v: nat, path: seq<nat>)
    requires Flooding(sha, s, init, base, block) && Silent(sha, s)
    requires Has(s, u, base + [block]) && IsPath(s, init, base, u, v, path)
    ensures Has(s, v, base + [block])
    decreases |path|
  {
    hide Shaped, Accepts, FloodLine, PeerFloods;
    if path != [] {
      var w := s.channels[path[0]].dst;
      assert IsPath(s, init, base, w, v, path[1..]);
      SilenceIsEmpty(sha, s, init, base, block);
      assert Covered(s, init, base, block, path[0]);
      PathCarries(sha, s, init, base, block, w, v, path[1..]);
    }
  }

  lemma SilenceIsExact(sha: Hasher, s: Net, init: seq<Held>, base: Held, block: Block, u: nat)
    requires Flooding(sha, s, init, base, block) && Silent(sha, s)
    requires Has(s, u, base + [block]) && Reached(s, init, base, block, u)
    ensures forall v: nat | v < |s.peers| ::
              && (s.peers[v].chain == base + [block] <==> Reaches(s, init, base, u, v))
              && (s.peers[v].chain == base + [block] || s.peers[v].chain == init[v])
  {
    forall v: nat | v < |s.peers|
      ensures s.peers[v].chain == base + [block] <==> Reaches(s, init, base, u, v)
      ensures s.peers[v].chain == base + [block] || s.peers[v].chain == init[v]
    {
      assert PeerFloods(s, init, base, block, v);
      hide Flooding, Silent;
      if Reaches(s, init, base, u, v) {
        var path :| IsPath(s, init, base, u, v, path);
        PathCarries(sha, s, init, base, block, u, v, path);
      }
    }
  }

  lemma {:induction false} FloodRuns(sha: Hasher, s: Net, init: seq<Held>, base: Held, block: Block, u: nat,
                                     run: seq<Action>)
    requires Flooding(sha, s, init, base, block) && Has(s, u, base + [block]) && Reached(s, init, base, block, u)
    requires IsRun(sha, s, run) && forall a | a in run :: InFlood(a)
    ensures var t := Final(sha, s, run);
            && Flooding(sha, t, init, base, block) && Has(t, u, base + [block])
            && Reached(t, init, base, block, u) && SameLinks(s, t)
    decreases |run|
  {
    hide Flooding, Next, Reached, Enabled, InFlood;
    if run != [] {
      var t := Next(sha, s, run[0]);
      assert run[0] in run && forall a | a in run[1..] :: a in run;
      FloodGoesOn(sha, s, init, base, block, run[0]);
      LinksStayInFlood(sha, s, init, base, block, run[0]);
      StaysReached(sha, s, init, base, block, u, run[0]);
      StillHas(sha, s, init, base, block, run[0], u);
      FloodRuns(sha, t, init, base, block, u, run[1..]);
    }
  }

  lemma FirstIsReached(sha: Hasher, s: Net, a: Action)
    requires Enabled(sha, s, a) && a.Finish? && Mines(sha, s, a)
    requires s.peers[a.u].chain + [a.block] !in ChainsOf(s)
    ensures var t, init, base := Next(sha, s, a), ChainsOf(s), s.peers[a.u].chain;
            SameLinks(s, t) && Has(t, a.u, base + [a.block]) && Reached(t, init, base, a.block, a.u)
  {
    hide MinedFrom, Accepts, Next, Mines;
    var t, init, base := Next(sha, s, a), ChainsOf(s), s.peers[a.u].chain;
    AfterMining(sha, s, a);
    forall v: nat | v < |s.peers| && v != a.u ensures !Has(t, v, base + [a.block]) {
      assert init[v] in init && t.peers[v].chain == init[v];
    }
    assert IsPath(t, init, base, a.u, a.u, []);
  }

  /**
   How far a block floods. In a quiet network one node mines a block that is
   read as it was printed, and all others mine nothing. However messages and
   broadcasts then interleave, and whatever transactions are sent meanwhile:
   once the network is silent, the block is exactly where a path leads from the
   miner through nodes that held its parent chain, and all others hold what
   they held. And silent it gets: traffic alone ends after at most as many steps
   as the measure says.
   */
  lemma FloodReachesExactly(sha: Hasher, s: Net, a: Action, run: seq<Action>)
    requires Quiet(s) && Enabled(sha, s, a) && a.Finish? && Mines(sha, s, a)
    requires CleanText(s.peers[a.u].addr) && forall u: nat | u < |s.peers| && u != a.u :: Calm(s.peers[u])
    requires Intact(s, NewBlock(a.block))
    requires OnlyBehind(sha, ChainsOf(s), s.peers[a.u].chain, a.block)
    requires s.peers[a.u].chain + [a.block] !in ChainsOf(s)
    requires IsRun(sha, Next(sha, s, a), run) && forall b | b in run :: InFlood(b)
    ensures AllTraffic(run) && ClearState(s) ==> |run| <= Measure(Next(sha, s, a))
    ensures var t, base := Final(sha, Next(sha, s, a), run), s.peers[a.u].chain;
            |t.peers| == |s.peers| &&
            (Silent(sha, t) ==> forall v: nat | v < |s.peers| ::
               t.peers[v].chain == if Reaches(s, ChainsOf(s), base, a.u, v) then base + [a.block] else s.peers[v].chain)
  {
    assert Shaped(s);
    hide Next, Measure, Silent, Final, Mines, IsRun, Quiet, OnlyBehind, Reached, Reaches, Flooding, ClearState, Shaped;
    var t, init, base := Next(sha, s, a), ChainsOf(s), s.peers[a.u].chain;
    MiningStartsFlood(sha, s, a);
    FirstIsReached(sha, s, a);
    FloodRuns(sha, t, init, base, a.block, a.u, run);
    if AllTraffic(run) && ClearState(s) { FloodEnds(sha, s, a, run); }
    var end := Final(sha, t, run);
    assert SameLinks(s, end) && SameLinks(end, s);
    if Silent(sha, end) {
      SilenceIsExact(sha, end, init, base, a.block, a.u);
      forall v: nat | v < |s.peers|
        ensures Reaches(s, init, base, a.u, v) <==> Reaches(end, init, base, a.u, v)
      {
        if Reaches(s, init, base, a.u, v) { ReachStays(s, end, init, base, a.u, v); }
        if Reaches(end, init, base, a.u, v) { ReachStays(end, s, init, base, a.u, v); }
      }
    }
  }

  lemma FloodEnds(sha: Hasher, s: Net, a: Action, run: seq<Action>)
    requires Shaped(s) && ClearState(s) && Enabled(sha, s, a) && a.Finish?
    requires IsRun(sha, Next(sha, s, a), run) && AllTraffic(run)
    ensures |run| <= Measure(Next(sha, s, a))
  {
    hide Measure, IsRun, Final, AllTraffic, Next, Shaped, ClearState;
    ShapeKept(sha, s, a);
    ShapedWire(s);
    ClearKept(sha, s, a);
    TrafficEnds(sha, Next(sha, s, a), run);
  }

  /** All nodes can reach each other. */
  ghost predicate Connected(s: Net, base: Held) {
    forall u: nat, v: nat | u < |s.peers| && v < |s.peers| :: Reaches(s, ChainsOf(s), base, u, v)
  }

  /** Flood completeness: when all nodes agree and are connected, all get it. */
  lemma FloodCompletes(sha: Hasher, s: Net, base: Held, a: Action, run: seq<Action>)
    requires Quiet(s) && Enabled(sha, s, a) && a.Finish? && Mines(sha, s, a)
    requires CleanText(s.peers[a.u].addr) && forall u: nat | u < |s.peers| && u != a.u :: Calm(s.peers[u])
    requires Intact(s, NewBlock(a.block))
    requires (forall u: nat | u < |s.peers| :: s.peers[u].chain == base) && Connected(s, base)
    requires IsRun(sha, Next(sha, s, a), run) && forall b | b in run :: InFlood(b)
    ensures var t := Final(sha, Next(sha, s, a), run);
            |t.peers| == |s.peers| &&
            (Silent(sha, t) ==> forall v: nat | v < |s.peers| :: t.peers[v].chain == base + [a.block])
  {
    hide Next, Silent, Final, IsRun, Quiet, Reaches, Accepts;
    assert forall c | c in ChainsOf(s) :: c == base;
    assert OnlyBehind(sha, ChainsOf(s), base, a.block);
    FloodReachesExactly(sha, s, a, run);
  }

  /** In an honest and tidy network a mined block survives the wire, fits only
      behind its parent, and nobody has it yet. */
  lemma HonestFlood(sha: Hasher, g: Block, s: Net, a: Action)
    requires Shaped(s) && NetHonest(sha, g, s) && IsGenesis(sha, g) && TidyNet(sha, s)
    requires Consensus.OneHistory(sha, g, s) && Consensus.NoCollisions(sha, s.mined)
    requires Enabled(sha, s, a) && a.Finish? && Mines(sha, s, a)
    ensures Intact(s, NewBlock(a.block)) && CleanText(s.peers[a.u].addr)
    ensures OnlyBehind(sha, ChainsOf(s), s.peers[a.u].chain, a.block)
    ensures s.peers[a.u].chain + [a.block] !in ChainsOf(s)
  {
    hide Accepts, Shaped, NetHonest, Consensus.OneHistory, Consensus.NoCollisions, MinedFrom, IsGenesis,
         ChainValid;
    var base, init := s.peers[a.u].chain, ChainsOf(s);
    MinesMeansAccepts(sha, s, a);
    MinedIsIntact(sha, s, a);
    forall v: nat | v < |s.peers|
      ensures Accepts(sha, init[v], a.block) ==> init[v] == base
      ensures init[v] != base + [a.block]
    {
      FitsBehindOne(sha, g, s, a, v);
      NobodyHasIt(sha, g, s, a, v);
    }
    assert forall c | c in init :: exists v: nat :: v < |init| && init[v] == c;
  }

  lemma MinedIsIntact(sha: Hasher, s: Net, a: Action)
    requires Shaped(s) && TidyNet(sha, s) && Enabled(sha, s, a) && a.Finish?
    ensures Intact(s, NewBlock(a.block)) && CleanText(s.peers[a.u].addr)
  {
    hide SendableBlock, MinedFrom, CleanText, TidyTx;
    var p := s.peers[a.u];
    assert TidyPeer(sha, p);
    MinedIsTidy(sha, p.errand.base, p.errand.time, p.errand.picked, p.addr, a.block);
    ShortArrives(NewBlock(a.block));
    ShapedReads(s, NewBlock(a.block));
  }

  lemma MinesMeansAccepts(sha: Hasher, s: Net, a: Action)
    requires HasActor(s, a) && Mines(sha, s, a)
    ensures Accepts(sha, s.peers[a.u].chain, a.block)
  {
  }

  lemma FitsBehindOne(sha: Hasher, g: Block, s: Net, a: Action, v: nat)
    requires NetHonest(sha, g, s) && Consensus.OneHistory(sha, g, s) && Consensus.NoCollisions(sha, s.mined)
    requires HasActor(s, a) && Mines(sha, s, a) && v < |s.peers|
    ensures Accepts(sha, s.peers[v].chain, a.block) ==> s.peers[v].chain == s.peers[a.u].chain
  {
    hide Accepts, HonestChain, Consensus.NoCollisions, Consensus.History;
    var c, d := s.peers[a.u].chain, s.peers[v].chain;
    assert PeerHonest(sha, g, s.peers[a.u]) && PeerHonest(sha, g, s.peers[v]);
    if Accepts(sha, d, a.block) {
      Consensus.AcceptedStandsBehind(sha, g, c, a.block);
      Consensus.AcceptedStandsBehind(sha, g, d, a.block);
      Consensus.OneTipOneChain(sha, g, s, v, a.u);
    }
  }

  lemma NobodyHasIt(sha: Hasher, g: Block, s: Net, a: Action, v: nat)
    requires Shaped(s) && NetHonest(sha, g, s) && IsGenesis(sha, g) && Consensus.OneHistory(sha, g, s)
    requires Enabled(sha, s, a) && a.Finish? && Mines(sha, s, a) && v < |s.peers|
    ensures s.peers[v].chain != s.peers[a.u].chain + [a.block]
  {
    hide Accepts, HonestChain, Consensus.History, Consensus.MinedBy, Shaped, NetHonest, MinedFrom;
    Consensus.FinishStaysKnown(sha, g, s, a);
    var d := s.peers[v].chain;
    assert Consensus.PeerKnown(s.mined, s.peers[v]);
    if |d| > 1 && Consensus.MinedBy(d) == s.peers[a.u].addr {
      Consensus.NothingAsLongBefore(sha, g, s.peers, s.mined, a.u, d);
    }
  }
}
