/**
 What every reachable state of an honest network keeps, under any interleaving
 of mining, relaying, connecting and replacing; and what a miner may conclude
 from a successful `chain_add_block`.
 */
module Honest {
  import opened Machine
  import opened Records
  import opened Blocks
  import opened Chains
  import opened Mining
  import opened Wire
  import opened Handlers
  import opened Network

  // Runs

  ghost predicate IsRun(sha: Hasher, s: Net, run: seq<Action>)
    decreases |run|
  {
    run == [] || (Enabled(sha, s, run[0]) && IsRun(sha, Next(sha, s, run[0]), run[1..]))
  }

  ghost function Final(sha: Hasher, s: Net, run: seq<Action>): Net
    requires IsRun(sha, s, run)
    decreases |run|
  {
    if run == [] then s else Final(sha, Next(sha, s, run[0]), run[1..])
  }

  lemma {:induction false} RunsJoin(sha: Hasher, s: Net, run: seq<Action>, more: seq<Action>)
    requires IsRun(sha, s, run) && IsRun(sha, Final(sha, s, run), more)
    ensures IsRun(sha, s, run + more) && Final(sha, s, run + more) == Final(sha, Final(sha, s, run), more)
    decreases |run|
  {
    hide Next, Enabled;
    if run == [] {
      assert run + more == more;
    } else {
      assert (run + more)[1..] == run[1..] + more;
      RunsJoin(sha, Next(sha, s, run[0]), run[1..], more);
    }
  }

  lemma OneStep(sha: Hasher, s: Net, a: Action)
    requires Enabled(sha, s, a)
    ensures IsRun(sha, s, [a]) && Final(sha, s, [a]) == Next(sha, s, a)
  {
    hide Next, Enabled;
    assert [a][1..] == [];
  }

  predicate Fresh(g: Block, p: Peer) {
    p.chain == [g] && p.pool == [] && p.table == [] && p.jobs == [] && p.errand.Idle?
  }

  /** Every node has mined its genesis block, and nobody is connected. */
  ghost predicate Start(sha: Hasher, g: Block, s: Net) {
    && IsGenesis(sha, g) && TrueWire(s) && s.channels == [] && s.mined == {[g]}
    && forall p | p in s.peers :: Fresh(g, p)
  }

  // The state keeps its shape

  lemma JobsStay(sha: Hasher, s: Net, a: Action, u: nat)
    requires Shaped(s) && Enabled(sha, s, a) && u < |s.peers|
    ensures forall job | job in s.peers[u].jobs :: JobShaped(Next(sha, s, a), u, job)
    ensures forall c | c in s.peers[u].table :: OwnsLink(Next(sha, s, a), u, c)
  {
    hide Next;
    assert PeerShaped(s, u);
    forall job | job in s.peers[u].jobs ensures JobShaped(Next(sha, s, a), u, job) {
      if job.SyncPool? { LinkStays(sha, s, a, u, job.fd); }
      if job.Relay? && job.except.Some? { LinkStays(sha, s, a, u, job.except.value); }
    }
    forall c | c in s.peers[u].table ensures OwnsLink(Next(sha, s, a), u, c) {
      LinkStays(sha, s, a, u, c);
    }
  }

  lemma NewLinks(sha: Hasher, s: Net, a: Action, c: nat)
    requires Shaped(s) && Enabled(sha, s, a) && c < |Next(sha, s, a).channels|
    ensures |Next(sha, s, a).channels| == |Links(s, a)|
    ensures Next(sha, s, a).channels[c].src == Links(s, a)[c].src
    ensures Next(sha, s, a).channels[c].dst == Links(s, a)[c].dst
  {
    SendAllFrame(s.wire, Links(s, a), Posts(sha, s, a), c);
  }

  lemma LinksStayShaped(sha: Hasher, s: Net, a: Action, c: nat)
    requires Shaped(s) && Enabled(sha, s, a) && c < |Next(sha, s, a).channels|
    ensures |Next(sha, s, a).channels| % 2 == 0 && LinkShaped(Next(sha, s, a), c)
  {
    var t := Next(sha, s, a);
    hide Next, Posts, After;
    NewLinks(sha, s, a, c);
    assert |t.peers| == |s.peers| by { PeersStay(sha, s, a); }
    if c < |s.channels| { assert LinkShaped(s, c); }
    assert Reverse(c) < |t.channels|;
    NewLinks(sha, s, a, Reverse(c));
    MessagesComeFrom(sha, s, a, c);
    forall l | l in t.channels[c].queue ensures LineShaped(l) {
      if !(c < |s.channels| && l in s.channels[c].queue) {
        var m :| (c, m) in Posts(sha, s, a) && l in s.wire(m);
        ShapedReads(s, m);
        ReadingIsWithin(m);
      }
    }
  }

  lemma PeersStay(sha: Hasher, s: Net, a: Action)
    requires Enabled(sha, s, a)
    ensures |Next(sha, s, a).peers| == |s.peers| && Next(sha, s, a).wire == s.wire
    ensures Next(sha, s, a).peers[Actor(s, a)] == After(sha, s, a)
    ensures forall u | 0 <= u < |s.peers| && u != Actor(s, a) :: Next(sha, s, a).peers[u] == s.peers[u]
  {
  }

  /** A chain is sent only by a node that holds it. */
  lemma ResponseIsHeld(sha: Hasher, s: Net, a: Action, post: Post)
    requires Shaped(s) && Enabled(sha, s, a) && post in Posts(sha, s, a) && post.1.ChainResponse?
    ensures post.1.chain == s.peers[Actor(s, a)].chain && |post.1.chain| <= MAX_BLOCKS
  {
    assert PeerShaped(s, Actor(s, a));
    if a.Work? {
      var p := s.peers[a.u];
      match p.jobs[a.j]
      case Relay(block, except) => BroadcastReaches(p.table, except, NewBlock(block), post);
      case Spread(tx) => BroadcastReaches(p.table, None, NewTx(tx), post);
      case SyncPool(fd) => PoolPostsAre(fd, p.pool, post);
      case AskLast =>
    }
  }

  /** A node that has one more connection, whose number is new to its table. */
  lemma GrownPeer(t: Net, u: nat, p: Peer, c: nat, more: seq<Job>)
    requires u < |t.peers|
    requires t.peers[u] == p.(table := p.table + [c], jobs := p.jobs + more)
    requires |p.chain| <= MAX_BLOCKS && |p.pool| <= MEMPOOL_SIZE && |p.table| < MAX_PEERS
    requires c !in p.table && OwnsLink(t, u, c) && forall d | d in p.table :: OwnsLink(t, u, d)
    requires forall i, j | 0 <= i < j < |p.table| :: p.table[i] != p.table[j]
    requires forall job | job in p.jobs || job in more :: JobShaped(t, u, job)
    ensures PeerShaped(t, u)
  {
    assert forall i | 0 <= i < |p.table| :: p.table[i] in p.table;
    assert forall d | d in t.peers[u].table :: d in p.table || d == c;
    assert forall job | job in t.peers[u].jobs :: job in p.jobs || job in more;
  }

  lemma DialStaysShaped(sha: Hasher, s: Net, a: Action)
    requires Shaped(s) && Enabled(sha, s, a) && a.Dial? && HasRoom(s.peers[a.u])
    ensures PeerShaped(Next(sha, s, a), a.u)
  {
    var t, u, k := Next(sha, s, a), a.u, |s.channels|;
    PeersStay(sha, s, a);
    JobsStay(sha, s, a, u);
    assert PeerShaped(s, u);
    NewLinks(sha, s, a, k);
    assert forall c | c in s.peers[u].table :: OwnsLink(s, u, c);
    GrownPeer(t, u, s.peers[u], k, [SyncPool(k), AskLast]);
  }

  lemma AcceptStaysShaped(sha: Hasher, s: Net, a: Action)
    requires Shaped(s) && Enabled(sha, s, a) && a.AcceptDial?
    ensures PeerShaped(Next(sha, s, a), Actor(s, a))
  {
    var t, u := Next(sha, s, a), Actor(s, a);
    PeersStay(sha, s, a);
    JobsStay(sha, s, a, u);
    assert PeerShaped(s, u);
    LinkStays(sha, s, a, u, a.c);
    GrownPeer(t, u, s.peers[u], a.c, [SyncPool(a.c)]);
  }

  lemma ActorStaysShaped(sha: Hasher, s: Net, a: Action)
    requires Shaped(s) && Enabled(sha, s, a)
    ensures PeerShaped(Next(sha, s, a), Actor(s, a))
  {
    hide Reading;
    var t, u := Next(sha, s, a), Actor(s, a);
    if a.Dial? && HasRoom(s.peers[u]) {
      DialStaysShaped(sha, s, a);
    } else if a.AcceptDial? {
      AcceptStaysShaped(sha, s, a);
    } else {
      hide Next, Posts;
      PeersStay(sha, s, a);
      JobsStay(sha, s, a, u);
      assert PeerShaped(s, u);
      if a.Deliver? {
        assert LinkShaped(s, a.c);
        LinkStays(sha, s, a, u, Reverse(a.c));
        assert LineShaped(s.channels[a.c].queue[0]) by {
          assert s.channels[a.c].queue[0] in s.channels[a.c].queue;
        }
      }
    }
  }

  lemma ShapeKept(sha: Hasher, s: Net, a: Action)
    requires Shaped(s) && Enabled(sha, s, a)
    ensures Shaped(Next(sha, s, a))
  {
    var t := Next(sha, s, a);
    hide Next, After, Posts, Links;
    PeersStay(sha, s, a);
    forall c: nat | c < |t.channels| ensures LinkShaped(t, c) { LinksStayShaped(sha, s, a, c); }
    if |t.channels| > 0 { LinksStayShaped(sha, s, a, 0); }
    forall u: nat | u < |t.peers| ensures PeerShaped(t, u) {
      if u == Actor(s, a) {
        ActorStaysShaped(sha, s, a);
      } else {
        assert PeerShaped(s, u);
        JobsStay(sha, s, a, u);
      }
    }
  }

  // Honest chains

  /** Valid, starting with the common genesis block, within the array, and each
      block numbered by its place. */
  predicate HonestChain(sha: Hasher, g: Block, c: seq<Block>) {
    && 1 <= |c| <= MAX_BLOCKS && c[0] == g && ChainValid(sha, c)
    && forall i | 0 <= i < |c| :: c[i].index == i
  }

  predicate IsDigest(s: string) { |s| == 64 && forall c | c in s :: IsHex(c) }

  lemma DigestOf(h: Digest)
    ensures IsDigest(h)
  {
  }

  /** All hashes of an honest chain are digests. */
  lemma {:induction false} HonestHashes(sha: Hasher, g: Block, chain: seq<Block>, i: nat)
    requires IsGenesis(sha, g) && HonestChain(sha, g, chain) && i < |chain|
    ensures IsDigest(chain[i].hash) && IsDigest(chain[i].prevHash)
  {
    hide PreImage, NonceWorks, MeetsTarget, IsDigest;
    if i == 0 {
      DigestOf(sha(PreImage(GenesisTemplate().(nonce := g.nonce))));
      DigestOf(g.prevHash);
    } else {
      assert LinkValid(sha, chain[i - 1], chain[i]);
      DigestOf(sha(PreImage(chain[i])));
      HonestHashes(sha, g, chain, i - 1);
    }
  }

  /** What a chain can have become: longer, or it is the same. */
  predicate Since(before: seq<Block>, now: seq<Block>) {
    |before| <= |now| && (|before| == |now| ==> before == now)
  }

  /** What the selection loop picks when each balance is read from its own chain. */
  function PickedBy(seen: seq<Held>, pool: seq<Tx>): seq<Tx>
    requires |seen| <= |pool|
  {
    if seen == [] then []
    else
      var n := |seen| - 1;
      PickedBy(seen[..n], pool) + if Affordable(seen[n], pool[n]) then [pool[n]] else []
  }

  /** Every balance was read from a chain between the snapshot and now. */
  predicate SeenSince(base: seq<Block>, seen: seq<Held>, now: seq<Block>) {
    Since(base, now) && forall r | r in seen :: Since(base, r) && Since(r, now)
  }

  predicate MinerHonest(sha: Hasher, g: Block, p: Peer) {
    match p.errand
    case Idle => true
    case Paying(_) => true
    case Collecting(base, _, seen, picked) =>
      && HonestChain(sha, g, base) && SeenSince(base, seen, p.chain)
      && |seen| <= |p.pool| && picked == PickedBy(seen, p.pool)
    case Ready(base, _, seen, picked, pool) =>
      && HonestChain(sha, g, base) && SeenSince(base, seen, p.chain)
      && |seen| <= |pool| && picked == PickedBy(seen, pool)
      && (|seen| == |pool| || |picked| == ROOM)
  }

  predicate PeerHonest(sha: Hasher, g: Block, p: Peer) {
    HonestChain(sha, g, p.chain) && MinerHonest(sha, g, p)
  }

  predicate MsgHonest(sha: Hasher, g: Block, m: Msg) {
    m.ChainResponse? ==> HonestChain(sha, g, m.chain)
  }

  /** A chain that a node may adopt. */
  predicate Adoptable(sha: Hasher, chain: seq<Block>) { |chain| > 1 && ChainValid(sha, chain) }

  /** A chain that is read is honest, if it can be adopted at all. */
  predicate LineHonest(sha: Hasher, g: Block, l: Heard) {
    l.Ok? && l.value.ChainResponse? && Adoptable(sha, l.value.chain) ==> HonestChain(sha, g, l.value.chain)
  }

  predicate NetHonest(sha: Hasher, g: Block, s: Net) {
    && (forall u: nat | u < |s.peers| :: PeerHonest(sha, g, s.peers[u]))
    && (forall c: nat | c < |s.channels| :: forall l | l in s.channels[c].queue :: LineHonest(sha, g, l))
  }

  /** What can be adopted of what is read of the message is what was sent, or the
      beginning of it. */
  ghost predicate Undistorted(sha: Hasher, s: Net, m: Msg) {
    forall l | l in s.wire(m) && l.Ok? && l.value.ChainResponse? && Adoptable(sha, l.value.chain) ::
      m.ChainResponse? && l.value.chain <= m.chain
  }

  /** The wire distorts no chain that is sent in the step. */
  ghost predicate SendsUndistorted(sha: Hasher, s: Net, a: Action)
    requires Enabled(sha, s, a)
  {
    forall post | post in Posts(sha, s, a) :: Undistorted(sha, s, post.1)
  }

  lemma PrefixIsHonest(sha: Hasher, g: Block, c: seq<Block>, d: seq<Block>)
    requires HonestChain(sha, g, c) && d <= c && d != []
    ensures HonestChain(sha, g, d)
  {
    hide LinkValid;
    assert forall i | 0 <= i < |d| :: d[i] == c[i];
    forall i | 1 <= i < |d| ensures LinkValid(sha, d[i - 1], d[i]) { assert LinkValid(sha, c[i - 1], c[i]); }
  }

  lemma ArrivesHonest(sha: Hasher, g: Block, s: Net, m: Msg, l: Heard)
    requires MsgHonest(sha, g, m) && Undistorted(sha, s, m) && l in s.wire(m)
    ensures LineHonest(sha, g, l)
  {
    hide HonestChain;
    if l.Ok? && l.value.ChainResponse? && Adoptable(sha, l.value.chain) {
      PrefixIsHonest(sha, g, m.chain, l.value.chain);
    }
  }

  lemma AddStaysHonest(sha: Hasher, g: Block, c: seq<Block>, block: Block)
    requires HonestChain(sha, g, c)
    ensures HonestChain(sha, g, AddBlock(sha, c, block)) && Since(c, AddBlock(sha, c, block))
  {
  }

  lemma HandlingStaysHonest(sha: Hasher, g: Block, chain: seq<Block>, pool: seq<Tx>, got: Heard)
    requires HonestChain(sha, g, chain) && LineHonest(sha, g, got)
    ensures var o := Effect(sha, chain, pool, got);
            && HonestChain(sha, g, o.chain) && Since(chain, o.chain) && pool <= o.pool
            && (o.answer.Some? ==> MsgHonest(sha, g, o.answer.value))
  {
    if got.Ok? && got.value.NewBlock? { AddStaysHonest(sha, g, chain, got.value.block); }
  }

  lemma SeenLater(base: seq<Block>, seen: seq<Held>, now: seq<Block>, later: seq<Block>)
    requires SeenSince(base, seen, now) && Since(now, later)
    ensures SeenSince(base, seen, later)
  {
  }

  /** The selection loop goes on while others change the chain. */
  lemma ReadStaysHonest(sha: Hasher, g: Block, s: Net, a: Action)
    requires Enabled(sha, s, a) && a.Read? && PeerHonest(sha, g, s.peers[a.u])
    ensures PeerHonest(sha, g, After(sha, s, a))
  {
    var p := s.peers[a.u];
    var n := |p.errand.seen|;
    assert (p.errand.seen + [p.chain])[..n] == p.errand.seen;
    assert p.errand.picked + [] == p.errand.picked;
  }

  lemma ActorStaysHonest(sha: Hasher, g: Block, s: Net, a: Action)
    requires Enabled(sha, s, a) && PeerHonest(sha, g, s.peers[Actor(s, a)])
    requires a.Deliver? ==> LineHonest(sha, g, s.channels[a.c].queue[0])
    ensures PeerHonest(sha, g, After(sha, s, a))
    ensures Since(s.peers[Actor(s, a)].chain, After(sha, s, a).chain)
  {
    hide HonestChain, Accepts, Affordable, PickedBy, Effect;
    var p, q := s.peers[Actor(s, a)], After(sha, s, a);
    match a
    case Read(_) => ReadStaysHonest(sha, g, s, a);
    case Snapshot(_, _) => assert PickedBy([], p.pool) == [] by { PickedByNobody(p.pool); }
    case Finish(_, block) => AddStaysHonest(sha, g, p.chain, block);
    case Deliver(c) =>
      HandlingStaysHonest(sha, g, p.chain, p.pool, s.channels[c].queue[0]);
      if p.errand.Collecting? || p.errand.Ready? { SeenLater(p.errand.base, p.errand.seen, p.chain, q.chain); }
      if p.errand.Collecting? { PoolIsLocked(sha, s, a); }
    case _ =>
  }

  lemma PickedByNobody(pool: seq<Tx>)
    ensures PickedBy([], pool) == []
  {
  }

  /** Nothing joins the mempool while the selection loop holds its lock. */
  lemma PoolIsLocked(sha: Hasher, s: Net, a: Action)
    requires Enabled(sha, s, a) && a.Deliver? && s.peers[Actor(s, a)].errand.Collecting?
    ensures After(sha, s, a).pool == s.peers[Actor(s, a)].pool
  {
  }

  lemma PostsAreHonest(sha: Hasher, g: Block, s: Net, a: Action, post: Post)
    requires Shaped(s) && Enabled(sha, s, a) && post in Posts(sha, s, a)
    requires PeerHonest(sha, g, s.peers[Actor(s, a)])
    ensures MsgHonest(sha, g, post.1)
  {
    hide Posts, HonestChain;
    if post.1.ChainResponse? { ResponseIsHeld(sha, s, a, post); }
  }

  /** What is read of the chains that are sent in the step is honest, or cannot
      be adopted. */
  ghost predicate SendsHonest(sha: Hasher, g: Block, s: Net, a: Action)
    requires Enabled(sha, s, a)
  {
    forall post, l | post in Posts(sha, s, a) && l in s.wire(post.1) :: LineHonest(sha, g, l)
  }

  lemma HonestStep(sha: Hasher, g: Block, s: Net, a: Action)
    requires NetHonest(sha, g, s) && Enabled(sha, s, a) && SendsHonest(sha, g, s, a)
    ensures NetHonest(sha, g, Next(sha, s, a))
    ensures forall u | 0 <= u < |s.peers| :: Since(s.peers[u].chain, Next(sha, s, a).peers[u].chain)
  {
    var t := Next(sha, s, a);
    hide Next, Posts, After, PeerHonest, LineHonest;
    PeersStay(sha, s, a);
    assert PeerHonest(sha, g, s.peers[Actor(s, a)]);
    if a.Deliver? { assert s.channels[a.c].queue[0] in s.channels[a.c].queue; }
    ActorStaysHonest(sha, g, s, a);
    forall c: nat, l | c < |t.channels| && l in t.channels[c].queue ensures LineHonest(sha, g, l) {
      MessagesComeFrom(sha, s, a, c);
      if m :| (c, m) in Posts(sha, s, a) && l in s.wire(m) { assert l in s.wire((c, m).1); }
    }
  }

  /**
   The honest-network invariant: one step by anybody keeps every chain, held
   or on the way, honest, and a chain changes only by getting longer. Blocks and
   transactions may be altered on the way, and chains may be cut or made
   invalid, but not into others that are valid.
   */
  lemma HonestyKept(sha: Hasher, g: Block, s: Net, a: Action)
    requires Shaped(s) && NetHonest(sha, g, s) && Enabled(sha, s, a) && SendsUndistorted(sha, s, a)
    ensures NetHonest(sha, g, Next(sha, s, a))
    ensures forall u | 0 <= u < |s.peers| :: Since(s.peers[u].chain, Next(sha, s, a).peers[u].chain)
  {
    hide Next, Posts, PeerHonest, LineHonest, MsgHonest, Undistorted;
    assert PeerHonest(sha, g, s.peers[Actor(s, a)]);
    forall post, l | post in Posts(sha, s, a) && l in s.wire(post.1) ensures LineHonest(sha, g, l) {
      PostsAreHonest(sha, g, s, a, post);
      ArrivesHonest(sha, g, s, post.1, l);
    }
    HonestStep(sha, g, s, a);
  }

  lemma StartIsHonest(sha: Hasher, g: Block, s: Net)
    requires Start(sha, g, s)
    ensures Shaped(s) && NetHonest(sha, g, s)
  {
    hide NonceWorks, PreImage;
    assert forall u: nat | u < |s.peers| :: s.peers[u] in s.peers;
  }

  /** A run on which the wire distorts no chain. */
  ghost predicate IsUndistorted(sha: Hasher, s: Net, run: seq<Action>)
    requires IsRun(sha, s, run)
    decreases |run|
  {
    run == [] || (SendsUndistorted(sha, s, run[0]) && IsUndistorted(sha, Next(sha, s, run[0]), run[1..]))
  }

  /** Every state of every such run. */
  lemma {:induction false} EveryStateIsHonest(sha: Hasher, g: Block, s: Net, run: seq<Action>)
    requires Shaped(s) && NetHonest(sha, g, s) && IsRun(sha, s, run) && IsUndistorted(sha, s, run)
    ensures Shaped(Final(sha, s, run)) && NetHonest(sha, g, Final(sha, s, run))
    ensures |Final(sha, s, run).peers| == |s.peers|
    ensures forall u | 0 <= u < |s.peers| :: Since(s.peers[u].chain, Final(sha, s, run).peers[u].chain)
    decreases |run|
  {
    hide Next, Shaped, NetHonest, Enabled, SendsUndistorted;
    if run != [] {
      ShapeKept(sha, s, run[0]);
      HonestyKept(sha, g, s, run[0]);
      PeersStay(sha, s, run[0]);
      EveryStateIsHonest(sha, g, Next(sha, s, run[0]), run[1..]);
    }
  }

  // Optimistic mining

  lemma NoneAffordable(chain: Held)
    ensures AffordableOnes(chain, []) == []
  {
  }

  /** When no balance was read from another chain, the loop picked what the
      selection picks from that chain. */
  lemma {:induction false} PickedFromOne(base: Held, seen: seq<Held>, pool: seq<Tx>)
    requires |seen| <= |pool| && forall r | r in seen :: r == base
    ensures PickedBy(seen, pool) == AffordableOnes(base, pool[..|seen|])
  {
    hide Affordable, AffordableOnes;
    if seen == [] {
      assert pool[..0] == [] && AffordableOnes(base, []) == [] by { NoneAffordable(base); }
    } else {
      var n := |seen| - 1;
      assert seen[n] in seen && forall r | r in seen[..n] :: r in seen;
      PickedFromOne(base, seen[..n], pool);
      PoolStep(base, pool, n);
      assert pool[..n + 1] == pool[..|seen|];
    }
  }

  lemma AddedToItsBase(sha: Hasher, g: Block, p: Peer, block: Block)
    requires PeerHonest(sha, g, p) && p.errand.Ready? && MinedFrom(sha, Draft(sha, p), block)
    ensures var m := p.errand;
            && (Accepts(sha, p.chain, block) <==> p.chain == m.base && |p.chain| < MAX_BLOCKS)
            && (Accepts(sha, p.chain, block) ==>
                  && (forall r | r in m.seen :: r == p.chain)
                  && m.picked == Select(p.chain, m.pool)
                  && MinedFrom(sha, Template(sha, Last(p.chain), m.time, Select(p.chain, m.pool), p.addr), block))
  {
    hide MinedFrom, Affordable, PickedBy, LinkValid;
    var m := p.errand;
    MinedIndex(sha, p, block);
    if p.chain == m.base { TemplateFits(sha, p.chain, m.time, m.picked, p.addr, block); }
    if Accepts(sha, p.chain, block) {
      assert |p.chain| == |m.base|;
      PickedFromOne(m.base, m.seen, m.pool);
      assert m.pool[..|m.pool|] == m.pool;
      SelectStops(m.base, m.pool, |m.seen|);
    }
  }

  /**
   Optimistic mining is free of ABA. The block is added exactly when the chain
   is the one that was snapshotted (and is not full); then every balance was
   read from that chain too, and the block is the one that `do_mine` would
   have made with nobody else running.
   */
  lemma OptimisticMining(sha: Hasher, g: Block, s: Net, a: Action)
    requires Shaped(s) && NetHonest(sha, g, s) && Enabled(sha, s, a) && a.Finish?
    ensures var p := s.peers[a.u];
            var m := p.errand;
            && (Accepts(sha, p.chain, a.block) <==> p.chain == m.base && |p.chain| < MAX_BLOCKS)
            && (Accepts(sha, p.chain, a.block) ==>
                  && (forall r | r in m.seen :: r == p.chain)
                  && m.picked == Select(p.chain, m.pool)
                  && MinedFrom(sha, Template(sha, Last(p.chain), m.time, Select(p.chain, m.pool), p.addr), a.block))
  {
    hide MinedFrom, Accepts, PeerHonest, Shaped, Select, Template;
    var p := s.peers[a.u];
    assert PeerHonest(sha, g, p);
    AddedToItsBase(sha, g, p, a.block);
  }

  lemma MinedIndex(sha: Hasher, p: Peer, block: Block)
    requires p.errand.Ready? && MinedFrom(sha, Draft(sha, p), block)
    ensures block.index == ToU32(Last(p.errand.base).index + 1)
  {
  }
}
