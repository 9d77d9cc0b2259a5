/**
 One history. As long as SHA-256 does not collide on what was mined, a block
 that a node accepts from the wire completes a chain that somebody mined, so
 every chain in the network is one that `do_mine` assembled block by block,
 and what is known of such chains holds for the whole network.
 */
module Consensus {
  import opened Machine
  import opened Decimal
  import opened Records
  import opened Transactions
  import opened Blocks
  import opened Chains
  import opened Forks
  import opened Ledger
  import opened Mining
  import opened Economy
  import opened Protocol
  import opened Wire
  import opened Handlers
  import opened Network
  import opened Honest
  import opened Tidy

  /** Steps of tidy users who name real accounts and no absurd amounts, with a
      clock between the years 2001 and 2286. */
  predicate Orderly(sha: Hasher, a: Action) {
    TidyAction(sha, a) &&
    match a
    case Snapshot(_, time) => |SignedNumeral(time)| == 10
    case Check(_, receiver, amount, fee, _) => amount + fee < TWO_63 && CutText(receiver) != COINBASE_ADDR
    case _ => true
  }

  predicate GoodTx(tx: Tx) { |tx.txHash| == 64 && Ordinary(tx) }

  // Mined chains

  function Front(c: seq<Block>): seq<Block>
    requires c != []
  {
    c[..|c| - 1]
  }

  /** The last block was made by `do_mine` for the chain before it. */
  predicate LastIsMined(sha: Hasher, c: seq<Block>)
    requires |c| > 1
  {
    var n := |c| - 1;
    && Assembled(sha, c[..n], c[n]) && OrdinaryBlock(c[n]) && LinkValid(sha, c[n - 1], c[n])
    && c[n].index == n && |SignedNumeral(c[n].timestamp)| == 10 && FullHashes(c[n])
    && |c[n].txs[0].receiver| == 64
  }

  /** Where a chain in the history comes from. */
  predicate Rooted(sha: Hasher, g: Block, mined: set<seq<Block>>, c: seq<Block>) {
    && 1 <= |c| <= MAX_BLOCKS && c[0] == g
    && (|c| > 1 ==> Front(c) in mined && LastIsMined(sha, c))
  }

  predicate AllRooted(sha: Hasher, g: Block, mined: set<seq<Block>>) {
    forall c {:trigger Rooted(sha, g, mined, c)} | c in mined :: Rooted(sha, g, mined, c)
  }

  function Reward(block: Block): Tx { if block.txs == [] then ZERO_TX else block.txs[0] }

  function MinedBy(c: seq<Block>): string
    requires c != []
  {
    Reward(c[|c| - 1]).receiver
  }

  /** The strings hashed for two blocks, and for their coinbases, do not collide. */
  predicate NoCollision(sha: Hasher, a: Block, b: Block) {
    && NoCollisionBetween(sha, a, b)
    && (sha(TxPreImage(Reward(a))) == sha(TxPreImage(Reward(b))) ==> TxPreImage(Reward(a)) == TxPreImage(Reward(b)))
  }

  /** The hypothesis on SHA-256: nothing more than what was hashed for blocks
      mined at one height. */
  predicate NoCollisions(sha: Hasher, mined: set<seq<Block>>) {
    forall c: seq<Block>, d: seq<Block> {:trigger NoCollision(sha, c[|c| - 1], d[|d| - 1])}
      | c in mined && d in mined && |c| == |d| > 1 ::
      NoCollision(sha, c[|c| - 1], d[|d| - 1])
  }

  /** The node that mined a chain still holds one that is as long. */
  predicate HasMiner(peers: seq<Peer>, c: seq<Block>)
    requires c != []
  {
    exists u :: 0 <= u < |peers| && peers[u].addr == MinedBy(c) && |c| <= |peers[u].chain|
  }

  /** Addresses are digests of public keys, and no two nodes share one. */
  predicate Wallets(peers: seq<Peer>) {
    && (forall u: nat | u < |peers| :: |peers[u].addr| == 64 && CleanText(peers[u].addr))
    && (forall u, v | 0 <= u < v < |peers| :: peers[u].addr != peers[v].addr)
  }

  predicate History(sha: Hasher, g: Block, peers: seq<Peer>, mined: set<seq<Block>>) {
    && AllRooted(sha, g, mined)
    && (forall c | c in mined && |c| > 1 :: HasMiner(peers, c))
    && (forall c, d | c in mined && d in mined && |c| == |d| > 1 && MinedBy(c) == MinedBy(d) :: c == d)
  }

  /** A coinbase names its miner at a fixed place of its pre-image. */
  lemma CoinbaseMiner(t: Tx, u: Tx)
    requires t.sender == COINBASE_ADDR == u.sender && |t.receiver| == |u.receiver| == 64
    requires TxPreImage(t) == TxPreImage(u)
    ensures t.receiver == u.receiver
  {
    assert |COINBASE_ADDR| == 8;
    assert TxPreImage(t)[8..72] == t.receiver;
    assert TxPreImage(u)[8..72] == u.receiver;
  }

  lemma CoinbaseHash(sha: Hasher, miner: CString, totalFees: U64)
    ensures var t := Coinbase(sha, miner, totalFees);
            t.txHash == sha(TxPreImage(t)) && t.sender == COINBASE_ADDR && |t.txHash| == 64
    ensures |miner| <= 64 ==> Coinbase(sha, miner, totalFees).receiver == miner
  {
    var t := Coinbase(sha, miner, totalFees);
    assert TxPreImage(t.(txHash := "")) == TxPreImage(t);
  }

  /** Without collisions, at one height one hash means one miner. */
  lemma SameHashSameMiner(sha: Hasher, c: seq<Block>, d: seq<Block>)
    requires |c| == |d| > 1 && LastIsMined(sha, c) && LastIsMined(sha, d)
    requires NoCollision(sha, c[|c| - 1], d[|d| - 1]) && c[|c| - 1].hash == d[|d| - 1].hash
    ensures MinedBy(c) == MinedBy(d)
  {
    hide Coinbase, TxPreImage, Affordable;
    var a, b := c[|c| - 1], d[|d| - 1];
    PreImageInjective(a, b);
    CoinbaseHash(sha, a.txs[0].receiver, TotalFees(a.txs[1..]));
    CoinbaseHash(sha, b.txs[0].receiver, TotalFees(b.txs[1..]));
    CoinbaseMiner(a.txs[0], b.txs[0]);
  }

  /** So one hash decides the whole chain, transactions included. */
  lemma SameHashSameChain(sha: Hasher, g: Block, peers: seq<Peer>, mined: set<seq<Block>>,
                          c: seq<Block>, d: seq<Block>)
    requires History(sha, g, peers, mined) && NoCollisions(sha, mined)
    requires c in mined && d in mined && |c| == |d| > 0 && c[|c| - 1].hash == d[|d| - 1].hash
    ensures c == d
  {
    hide LastIsMined, NoCollision;
    assert Rooted(sha, g, mined, c) && Rooted(sha, g, mined, d);
    if |c| > 1 { SameHashSameMiner(sha, c, d); }
  }

  lemma OneMoreHonest(sha: Hasher, g: Block, c: seq<Block>)
    requires 1 < |c| <= MAX_BLOCKS && HonestChain(sha, g, Front(c)) && LastIsMined(sha, c)
    ensures HonestChain(sha, g, c)
  {
    hide Assembled, OrdinaryBlock, LinkValid, FullHashes;
    var f := Front(c);
    assert forall i | 0 <= i < |f| :: f[i] == c[i] && f[i].index == i;
    forall i | 1 <= i < |c| ensures LinkValid(sha, c[i - 1], c[i]) {
      if i < |f| { assert LinkValid(sha, f[i - 1], f[i]); }
    }
  }

  lemma OneMoreShaped(sha: Hasher, c: seq<Block>)
    requires |c| > 1 && HonestShape(Front(c)) && LastIsMined(sha, c)
    ensures HonestShape(c)
  {
    hide Assembled, OrdinaryBlock, LinkValid, FullHashes;
    var f := Front(c);
    assert forall i | 0 <= i < |f| :: f[i] == c[i];
  }

  lemma OneMoreAssembled(sha: Hasher, c: seq<Block>)
    requires |c| > 1 && ChainAssembled(sha, Front(c)) && OrdinaryChain(Front(c)) && LastIsMined(sha, c)
    ensures ChainAssembled(sha, c) && OrdinaryChain(c)
  {
    hide Assembled, OrdinaryBlock, LinkValid, FullHashes;
    var f := Front(c);
    assert forall i | 0 <= i < |f| :: f[i] == c[i];
    forall i | 1 <= i < |c| ensures Assembled(sha, c[..i], c[i]) && OrdinaryBlock(c[i]) {
      if i < |f| {
        assert f[..i] == c[..i];
        assert Assembled(sha, f[..i], f[i]) && OrdinaryBlock(f[i]);
      }
    }
  }

  /** What the history says of each of its chains. */
  lemma {:induction false} MinedIsAssembled(sha: Hasher, g: Block, mined: set<seq<Block>>, c: seq<Block>)
    requires IsGenesis(sha, g) && AllRooted(sha, g, mined)
    requires c in mined
    ensures HonestChain(sha, g, c) && HonestShape(c) && ChainAssembled(sha, c) && OrdinaryChain(c)
    decreases |c|
  {
    hide LastIsMined;
    assert Rooted(sha, g, mined, c);
    if |c| > 1 {
      hide HonestChain, HonestShape, ChainAssembled, OrdinaryChain, IsGenesis;
      MinedIsAssembled(sha, g, mined, Front(c));
      OneMoreHonest(sha, g, c);
      OneMoreShaped(sha, c);
      OneMoreAssembled(sha, c);
    }
  }

  // Who knows what

  predicate Known(mined: set<seq<Block>>, block: Block) {
    exists c :: c in mined && |c| > 1 && c[|c| - 1] == block
  }

  predicate JobKnown(mined: set<seq<Block>>, job: Job) {
    match job
    case Relay(block, _) => Known(mined, block)
    case Spread(tx) => GoodTx(tx)
    case _ => true
  }

  predicate ErrandKnown(mined: set<seq<Block>>, e: Errand) {
    match e
    case Idle => true
    case Paying(tx) => GoodTx(tx)
    case _ => e.base in mined && |SignedNumeral(e.time)| == 10 && forall tx | tx in e.picked :: GoodTx(tx)
  }

  predicate PeerKnown(mined: set<seq<Block>>, p: Peer) {
    && p.chain in mined && ErrandKnown(mined, p.errand)
    && (forall tx | tx in p.pool :: GoodTx(tx))
    && (forall job | job in p.jobs :: JobKnown(mined, job))
  }

  predicate MsgKnown(mined: set<seq<Block>>, m: Msg) {
    match m
    case NewBlock(block) => Known(mined, block)
    case NewTx(tx) => GoodTx(tx)
    case ChainResponse(chain) => chain in mined
    case _ => true
  }

  /** What is read, if it can be adopted at all. */
  predicate LineKnown(sha: Hasher, mined: set<seq<Block>>, l: Heard) {
    l.Ok? && (l.value.ChainResponse? ==> Adoptable(sha, l.value.chain)) ==> MsgKnown(mined, l.value)
  }

  predicate OneHistory(sha: Hasher, g: Block, s: Net) {
    && Wallets(s.peers) && History(sha, g, s.peers, s.mined)
    && (forall u: nat | u < |s.peers| :: PeerKnown(s.mined, s.peers[u]))
    && (forall c: nat | c < |s.channels| :: forall l | l in s.channels[c].queue :: LineKnown(sha, s.mined, l))
  }

  lemma LastStandsBehind(sha: Hasher, c: seq<Block>)
    requires |c| > 1 && LastIsMined(sha, c)
    ensures c[|c| - 1].index == |c| - 1 && c[|c| - 1].prevHash == c[|c| - 2].hash
  {
    hide BlockValid, Assembled, OrdinaryBlock, FullHashes;
  }

  lemma KnownChain(sha: Hasher, g: Block, mined: set<seq<Block>>, block: Block) returns (front: seq<Block>)
    requires Known(mined, block) && AllRooted(sha, g, mined)
    ensures front in mined && front != [] && front + [block] in mined
    ensures block.index == |front| && block.prevHash == front[|front| - 1].hash
  {
    hide LastIsMined;
    var c :| c in mined && |c| > 1 && c[|c| - 1] == block;
    assert Rooted(sha, g, mined, c);
    LastStandsBehind(sha, c);
    front := Front(c);
    assert front + [block] == c;
  }

  lemma AcceptedStandsBehind(sha: Hasher, g: Block, chain: seq<Block>, block: Block)
    requires HonestChain(sha, g, chain) && Accepts(sha, chain, block)
    ensures block.index == |chain| && block.prevHash == chain[|chain| - 1].hash
  {
    hide ChainValid, BlockValid;
  }

  /** A relayed block that is accepted completes a chain of the history. */
  lemma AcceptedIsMined(sha: Hasher, g: Block, peers: seq<Peer>, mined: set<seq<Block>>,
                        chain: seq<Block>, block: Block)
    requires History(sha, g, peers, mined) && NoCollisions(sha, mined)
    requires chain != [] && chain in mined && HonestChain(sha, g, chain)
    requires Known(mined, block) && Accepts(sha, chain, block)
    ensures chain + [block] in mined
  {
    hide Rooted, Known, HonestChain, Accepts, NoCollisions;
    var front := KnownChain(sha, g, mined, block);
    AcceptedStandsBehind(sha, g, chain, block);
    SameHashSameChain(sha, g, peers, mined, front, chain);
  }

  lemma HandlingIsKnown(sha: Hasher, g: Block, peers: seq<Peer>, mined: set<seq<Block>>,
                        chain: seq<Block>, pool: seq<Tx>, got: Heard)
    requires History(sha, g, peers, mined) && NoCollisions(sha, mined)
    requires chain != [] && chain in mined && HonestChain(sha, g, chain) && LineKnown(sha, mined, got)
    requires forall tx | tx in pool :: GoodTx(tx)
    ensures var o := Effect(sha, chain, pool, got);
            && o.chain in mined && (forall tx | tx in o.pool :: GoodTx(tx))
            && (o.relay.Some? ==> Known(mined, o.relay.value))
            && (o.answer.Some? ==> MsgKnown(mined, o.answer.value))
  {
    hide History, NoCollisions, HonestChain, Known, GoodTx, Accepts, ChainValid;
    if got.Ok? && got.value.NewBlock? && Accepts(sha, chain, got.value.block) {
      AcceptedIsMined(sha, g, peers, mined, chain, got.value.block);
    }
  }

  // Mining writes history

  lemma PickedAreKnown(chain: seq<Block>, pool: seq<Tx>)
    ensures forall i | 0 <= i < |Select(chain, pool)| :: Affordable(chain, Select(chain, pool)[i])
  {
    forall i | 0 <= i < |Select(chain, pool)| ensures Affordable(chain, Select(chain, pool)[i]) {
      assert Select(chain, pool)[i] in AffordableOnes(chain, pool);
      AffordableIsJudged(chain, pool, Select(chain, pool)[i]);
    }
  }

  lemma MinedKeepsTemplate(sha: Hasher, template: Block, mined: Block)
    requires MinedFrom(sha, template, mined)
    ensures mined.txs == template.txs && mined.timestamp == template.timestamp
    ensures mined.prevHash == template.prevHash && mined.index == template.index
  {
  }

  /** What a miner puts behind a chain is such a block. */
  lemma MiningIsAssembling(sha: Hasher, g: Block, chain: Held, time: I64, picked: Picked, miner: Text64, block: Block)
    requires HonestChain(sha, g, chain) && IsGenesis(sha, g) && Accepts(sha, chain, block)
    requires MinedFrom(sha, Template(sha, Last(chain), time, picked, miner), block)
    requires |miner| == 64 && |SignedNumeral(time)| == 10
    requires forall i | 0 <= i < |picked| :: GoodTx(picked[i]) && Affordable(chain, picked[i])
    ensures LastIsMined(sha, chain + [block]) && MinedBy(chain + [block]) == miner
  {
    hide MinedFrom, Affordable, Coinbase, HonestChain, Accepts;
    var c, n := chain + [block], |chain|;
    MinedKeepsTemplate(sha, Template(sha, Last(chain), time, picked, miner), block);
    CoinbaseHash(sha, miner, TotalFees(picked));
    AcceptedStandsBehind(sha, g, chain, block);
    AcceptedIsLinked(sha, chain, block);
    assert c[..n] == chain && c[n] == block && block.txs[1..] == picked;
    assert forall i | 1 <= i < |block.txs| :: block.txs[i] == picked[i - 1];
    assert |COINBASE_ADDR| == 8;
    LastHashIsFull(sha, g, chain);
  }

  lemma AcceptedIsLinked(sha: Hasher, chain: seq<Block>, block: Block)
    requires |chain| > 0 && Accepts(sha, chain, block)
    ensures LinkValid(sha, chain[|chain| - 1], block)
  {
  }

  lemma LastHashIsFull(sha: Hasher, g: Block, chain: seq<Block>)
    requires HonestChain(sha, g, chain) && IsGenesis(sha, g)
    ensures |chain[|chain| - 1].hash| == 64
  {
    if |chain| > 1 { assert LinkValid(sha, chain[|chain| - 2], chain[|chain| - 1]); }
  }

  /** The same wallets, and no chain has become shorter. */
  predicate Later(peers: seq<Peer>, later: seq<Peer>) {
    && |peers| == |later|
    && forall u | 0 <= u < |peers| :: peers[u].addr == later[u].addr && |peers[u].chain| <= |later[u].chain|
  }

  lemma MinersStay(peers: seq<Peer>, later: seq<Peer>, c: seq<Block>)
    requires Later(peers, later) && c != [] && HasMiner(peers, c)
    ensures HasMiner(later, c)
  {
    var u :| 0 <= u < |peers| && peers[u].addr == MinedBy(c) && |c| <= |peers[u].chain|;
    assert later[u].addr == MinedBy(c);
  }

  lemma HistoryStays(sha: Hasher, g: Block, peers: seq<Peer>, later: seq<Peer>, mined: set<seq<Block>>)
    requires History(sha, g, peers, mined) && Later(peers, later)
    ensures History(sha, g, later, mined)
  {
    hide Rooted, HasMiner, MinedBy;
    forall c | c in mined && |c| > 1 ensures HasMiner(later, c) { MinersStay(peers, later, c); }
  }

  /** Nobody mines twice at one height: what a node mined before is no longer
      than the chain it now extends. */
  lemma NothingAsLongBefore(sha: Hasher, g: Block, peers: seq<Peer>, mined: set<seq<Block>>, u: nat, d: seq<Block>)
    requires History(sha, g, peers, mined) && Wallets(peers) && u < |peers|
    requires d in mined && |d| > 1 && MinedBy(d) == peers[u].addr
    ensures |d| <= |peers[u].chain|
  {
    hide Rooted, MinedBy;
    assert HasMiner(peers, d);
  }

  lemma HistoryGrows(sha: Hasher, g: Block, peers: seq<Peer>, later: seq<Peer>, mined: set<seq<Block>>,
                     u: nat, c: seq<Block>)
    requires History(sha, g, peers, mined) && Wallets(peers) && Later(peers, later) && u < |peers|
    requires later[u].chain == c && |c| == |peers[u].chain| + 1 && MinedBy(c) == peers[u].addr
    requires Rooted(sha, g, mined, c)
    ensures History(sha, g, later, mined + {c})
  {
    hide LastIsMined, HasMiner, MinedBy;
    HistoryStays(sha, g, peers, later, mined);
    assert HasMiner(later, c) by { NewMiner(later, u, c); }
    forall d | d in mined && |d| == |c| ensures MinedBy(d) != MinedBy(c) {
      if MinedBy(d) == MinedBy(c) { NothingAsLongBefore(sha, g, peers, mined, u, d); }
    }
    forall d | d in mined + {c} ensures Rooted(sha, g, mined + {c}, d) {
      assert Rooted(sha, g, mined, d);
    }
  }

  lemma NewMiner(peers: seq<Peer>, u: nat, c: seq<Block>)
    requires u < |peers| && peers[u].chain == c && c != [] && MinedBy(c) == peers[u].addr
    ensures HasMiner(peers, c)
  {
  }

  lemma KnownStays(mined: set<seq<Block>>, more: set<seq<Block>>, block: Block)
    requires mined <= more && Known(mined, block)
    ensures Known(more, block)
  {
    var c :| c in mined && |c| > 1 && c[|c| - 1] == block;
    assert c in more;
  }

  lemma LineStaysKnown(sha: Hasher, mined: set<seq<Block>>, more: set<seq<Block>>, l: Heard)
    requires mined <= more && LineKnown(sha, mined, l)
    ensures LineKnown(sha, more, l)
  {
    hide Known, GoodTx, Adoptable;
    if l.Ok? && l.value.NewBlock? { KnownStays(mined, more, l.value.block); }
  }

  /** The beginning of a mined chain was mined before. */
  lemma {:induction false} BeginningIsMined(sha: Hasher, g: Block, mined: set<seq<Block>>, c: seq<Block>, d: seq<Block>)
    requires AllRooted(sha, g, mined) && c in mined && d <= c && d != []
    ensures d in mined
    decreases |c|
  {
    hide LastIsMined;
    assert Rooted(sha, g, mined, c);
    if |d| < |c| {
      assert d <= Front(c);
      BeginningIsMined(sha, g, mined, Front(c), d);
    } else {
      assert d == c[..|d|] == c;
    }
  }

  /** What is read of a tidy message is known, if the message is. */
  lemma KnownArrives(sha: Hasher, g: Block, s: Net, m: Msg, l: Heard)
    requires Shaped(s) && TidyMsg(sha, m) && MsgKnown(s.mined, m) && AllRooted(sha, g, s.mined) && l in s.wire(m)
    ensures LineKnown(sha, s.mined, l)
  {
    hide Encode, Shaped, TidyMsg, Known, GoodTx, AllRooted, Adoptable;
    TidyReading(sha, s, m);
    if l != Ok(m) && l.Ok? && l.value.ChainResponse? && Adoptable(sha, l.value.chain) {
      assert l == s.wire(m)[0];
      assert l.value.chain != [] by { AdoptableIsSome(sha, l.value.chain); }
      BeginningIsMined(sha, g, s.mined, m.chain, l.value.chain);
    }
  }

  lemma AdoptableIsSome(sha: Hasher, chain: seq<Block>)
    requires Adoptable(sha, chain)
    ensures chain != []
  {
  }

  lemma PeerStaysKnown(mined: set<seq<Block>>, more: set<seq<Block>>, p: Peer)
    requires mined <= more && PeerKnown(mined, p)
    ensures PeerKnown(more, p)
  {
    hide Known, GoodTx;
    forall job | job in p.jobs ensures JobKnown(more, job) {
      if job.Relay? { KnownStays(mined, more, job.block); }
    }
  }

  // The invariant

  lemma PaymentIsGood(sha: Hasher, p: Peer, a: Action)
    requires a.Check? && Orderly(sha, a) && |p.addr| == 64
    ensures GoodTx(Payment(sha, p, a))
  {
    assert |COINBASE_ADDR| == 8;
  }

  lemma PostsAreKnown(sha: Hasher, g: Block, s: Net, a: Action, post: Post)
    requires Enabled(sha, s, a) && post in Posts(sha, s, a) && !a.Deliver?
    requires PeerKnown(s.mined, s.peers[Actor(s, a)])
    ensures MsgKnown(s.mined, post.1)
  {
    hide Known, GoodTx;
    if a.Work? {
      var p := s.peers[a.u];
      assert JobKnown(s.mined, p.jobs[a.j]) by { assert p.jobs[a.j] in p.jobs; }
      match p.jobs[a.j]
      case Relay(block, except) => BroadcastReaches(p.table, except, NewBlock(block), post);
      case Spread(tx) => BroadcastReaches(p.table, None, NewTx(tx), post);
      case SyncPool(fd) => PoolPostsAre(fd, p.pool, post);
      case AskLast =>
    }
  }

  /** Everything a step does but mining and delivering. */
  lemma ActorStaysKnown(sha: Hasher, g: Block, s: Net, a: Action)
    requires Enabled(sha, s, a) && Orderly(sha, a) && !a.Deliver? && !a.Finish?
    requires PeerKnown(s.mined, s.peers[Actor(s, a)]) && |s.peers[Actor(s, a)].addr| == 64
    ensures PeerKnown(s.mined, After(sha, s, a)) && After(sha, s, a).addr == s.peers[Actor(s, a)].addr
  {
    hide GoodTx, Payment, Affordable;
    if a.Check? { PaymentIsGood(sha, s.peers[a.u], a); }
  }

  lemma DeliveryStaysKnown(sha: Hasher, g: Block, s: Net, a: Action)
    requires Enabled(sha, s, a) && a.Deliver?
    requires PeerKnown(s.mined, s.peers[Actor(s, a)]) && HonestChain(sha, g, s.peers[Actor(s, a)].chain)
    requires History(sha, g, s.peers, s.mined) && NoCollisions(sha, s.mined)
    requires LineKnown(sha, s.mined, s.channels[a.c].queue[0])
    ensures PeerKnown(s.mined, After(sha, s, a)) && After(sha, s, a).addr == s.peers[Actor(s, a)].addr
    ensures forall post | post in Posts(sha, s, a) :: MsgKnown(s.mined, post.1)
  {
    hide Effect, GoodTx, Known, History, NoCollisions, HonestChain, MsgKnown;
    var p := s.peers[Actor(s, a)];
    HandlingIsKnown(sha, g, s.peers, s.mined, p.chain, p.pool, s.channels[a.c].queue[0]);
  }

  /** Mining adds its chain to the history, or leaves everything as it was. */
  lemma FinishStaysKnown(sha: Hasher, g: Block, s: Net, a: Action)
    requires Shaped(s) && NetHonest(sha, g, s) && Enabled(sha, s, a) && a.Finish?
    requires IsGenesis(sha, g) && OneHistory(sha, g, s)
    ensures PeerKnown(Next(sha, s, a).mined, After(sha, s, a))
    ensures After(sha, s, a).addr == s.peers[a.u].addr
    ensures Mines(sha, s, a) ==>
              var c := After(sha, s, a).chain;
              && |c| == |s.peers[a.u].chain| + 1 && MinedBy(c) == s.peers[a.u].addr
              && Rooted(sha, g, s.mined, c)
  {
    hide MinedFrom, Accepts, History, Affordable, GoodTx, LastIsMined, MinedBy, HonestChain;
    var p := s.peers[a.u];
    assert PeerKnown(s.mined, p) && PeerHonest(sha, g, p);
    OptimisticMining(sha, g, s, a);
    if Accepts(sha, p.chain, a.block) {
      PickedAreKnown(p.chain, p.errand.pool);
      assert forall i | 0 <= i < |p.errand.picked| :: p.errand.picked[i] in p.errand.picked;
      MiningIsAssembling(sha, g, p.chain, p.errand.time, p.errand.picked, p.addr, a.block);
      MinedIsKnown(sha, g, s.mined, p, a.block);
    }
  }

  lemma MinedIsKnown(sha: Hasher, g: Block, mined: set<seq<Block>>, p: Peer, block: Block)
    requires PeerKnown(mined, p) && HonestChain(sha, g, p.chain) && |p.chain| < MAX_BLOCKS
    requires LastIsMined(sha, p.chain + [block])
    ensures Rooted(sha, g, mined, p.chain + [block])
    ensures PeerKnown(mined + {p.chain + [block]},
                      p.(chain := p.chain + [block], jobs := p.jobs + [Relay(block, None)], errand := Idle))
  {
    hide LastIsMined, ChainValid, GoodTx;
    var c := p.chain + [block];
    assert Front(c) == p.chain;
    PeerStaysKnown(mined, mined + {c}, p);
    assert Known(mined + {c}, block) by { assert c[|c| - 1] == block; }
  }

  lemma HistoryAfter(sha: Hasher, s: Net, a: Action)
    requires Enabled(sha, s, a)
    ensures s.mined <= Next(sha, s, a).mined
    ensures Mines(sha, s, a) ==> Next(sha, s, a).mined == s.mined + {After(sha, s, a).chain}
    ensures !Mines(sha, s, a) ==> Next(sha, s, a).mined == s.mined
  {
    hide Accepts, After, Posts, Links;
  }

  lemma ActorIsKnown(sha: Hasher, g: Block, s: Net, a: Action)
    requires Shaped(s) && NetHonest(sha, g, s) && Enabled(sha, s, a) && Orderly(sha, a)
    requires IsGenesis(sha, g) && OneHistory(sha, g, s) && NoCollisions(sha, s.mined) && TidyNet(sha, s)
    ensures PeerKnown(Next(sha, s, a).mined, After(sha, s, a))
    ensures After(sha, s, a).addr == s.peers[Actor(s, a)].addr
    ensures forall post | post in Posts(sha, s, a) :: MsgKnown(s.mined, post.1)
  {
    hide History, NoCollisions, PeerKnown, MsgKnown, HonestChain, MinerHonest, After, Posts, Next, Shaped,
         TidyPeer, TidyLine, LineKnown;
    var p := s.peers[Actor(s, a)];
    HistoryAfter(sha, s, a);
    assert PeerKnown(s.mined, p) && PeerHonest(sha, g, p);
    if a.Deliver? {
      assert s.channels[a.c].queue[0] in s.channels[a.c].queue;
      DeliveryStaysKnown(sha, g, s, a);
    } else {
      forall post | post in Posts(sha, s, a) ensures MsgKnown(s.mined, post.1) { PostsAreKnown(sha, g, s, a, post); }
      if a.Finish? { FinishStaysKnown(sha, g, s, a); } else { ActorStaysKnown(sha, g, s, a); }
    }
  }

  /** One step keeps one history. */
  lemma OneHistoryKept(sha: Hasher, g: Block, s: Net, a: Action)
    requires Shaped(s) && NetHonest(sha, g, s) && Enabled(sha, s, a) && Orderly(sha, a)
    requires IsGenesis(sha, g) && OneHistory(sha, g, s) && NoCollisions(sha, s.mined) && TidyNet(sha, s)
    ensures OneHistory(sha, g, Next(sha, s, a)) && s.mined <= Next(sha, s, a).mined
  {
    hide History, NoCollisions, PeerKnown, MsgKnown, After, Posts, NetHonest, Next, Shaped, Wallets, Since,
         TidyNet, TidyAction, LineKnown, SendsUndistorted;
    var t, u := Next(sha, s, a), Actor(s, a);
    TidinessKept(sha, s, a);
    HonestyKept(sha, g, s, a);
    ActorIsKnown(sha, g, s, a);
    PeersStay(sha, s, a);
    HistoryAfter(sha, s, a);
    HistoryKept(sha, g, s, a);
    forall v: nat | v < |t.peers| ensures PeerKnown(t.mined, t.peers[v]) {
      if v != u { PeerStaysKnown(s.mined, t.mined, s.peers[v]); }
    }
    assert AllRooted(sha, g, s.mined) by { HistoryIsRooted(sha, g, s.peers, s.mined); }
    forall c: nat, l | c < |t.channels| && l in t.channels[c].queue ensures LineKnown(sha, t.mined, l) {
      MessagesComeFrom(sha, s, a, c);
      if m :| (c, m) in Posts(sha, s, a) && l in s.wire(m) {
        assert MsgKnown(s.mined, (c, m).1);
        TidyPosts(sha, s, a, (c, m));
        KnownArrives(sha, g, s, m, l);
      }
      LineStaysKnown(sha, s.mined, t.mined, l);
    }
  }

  lemma HistoryIsRooted(sha: Hasher, g: Block, peers: seq<Peer>, mined: set<seq<Block>>)
    requires History(sha, g, peers, mined)
    ensures AllRooted(sha, g, mined)
  {
    hide Rooted, HasMiner, MinedBy;
  }

  lemma HistoryKept(sha: Hasher, g: Block, s: Net, a: Action)
    requires Shaped(s) && NetHonest(sha, g, s) && Enabled(sha, s, a)
    requires IsGenesis(sha, g) && OneHistory(sha, g, s)
    requires After(sha, s, a).addr == s.peers[Actor(s, a)].addr
    requires forall u | 0 <= u < |s.peers| :: Since(s.peers[u].chain, Next(sha, s, a).peers[u].chain)
    ensures History(sha, g, Next(sha, s, a).peers, Next(sha, s, a).mined) && Wallets(Next(sha, s, a).peers)
  {
    hide History, Rooted, MinedBy, NetHonest, Shaped, After, Next, Mines, PeerKnown, IsGenesis;
    var t, u := Next(sha, s, a), Actor(s, a);
    PeersStay(sha, s, a);
    HistoryAfter(sha, s, a);
    assert Later(s.peers, t.peers);
    if Mines(sha, s, a) {
      MinesMeans(sha, s, a);
      FinishStaysKnown(sha, g, s, a);
      HistoryGrows(sha, g, s.peers, t.peers, s.mined, a.u, After(sha, s, a).chain);
    } else {
      HistoryStays(sha, g, s.peers, t.peers, s.mined);
    }
  }

  lemma MinesMeans(sha: Hasher, s: Net, a: Action)
    requires HasActor(s, a) && Mines(sha, s, a)
    ensures a.Finish? && a.u == Actor(s, a)
  {
  }

  predicate AllOrderly(sha: Hasher, run: seq<Action>) { forall a | a in run :: Orderly(sha, a) }

  lemma FewerCollide(sha: Hasher, mined: set<seq<Block>>, more: set<seq<Block>>)
    requires mined <= more && NoCollisions(sha, more)
    ensures NoCollisions(sha, mined)
  {
    hide NoCollision;
  }

  lemma {:induction false} HistoryOnlyGrows(sha: Hasher, s: Net, run: seq<Action>)
    requires IsRun(sha, s, run)
    ensures s.mined <= Final(sha, s, run).mined
    decreases |run|
  {
    hide Enabled;
    if run != [] { HistoryOnlyGrows(sha, Next(sha, s, run[0]), run[1..]); }
  }

  /** Every state of every orderly run, unless two mined blocks collide. */
  lemma {:induction false} EveryStateHasOneHistory(sha: Hasher, g: Block, s: Net, run: seq<Action>)
    requires Shaped(s) && NetHonest(sha, g, s) && TidyNet(sha, s) && IsRun(sha, s, run) && AllOrderly(sha, run)
    requires IsGenesis(sha, g) && OneHistory(sha, g, s) && NoCollisions(sha, Final(sha, s, run).mined)
    ensures OneHistory(sha, g, Final(sha, s, run))
    decreases |run|
  {
    hide Shaped, NetHonest, OneHistory, Enabled, Next, NoCollisions, IsGenesis, TidyNet, TidyAction,
         SendsUndistorted;
    if run != [] {
      var t := Next(sha, s, run[0]);
      assert run[0] in run && forall a | a in run[1..] :: a in run;
      HistoryOnlyGrows(sha, s, run);
      FewerCollide(sha, s.mined, Final(sha, s, run).mined);
      ShapeKept(sha, s, run[0]);
      TidinessKept(sha, s, run[0]);
      HonestyKept(sha, g, s, run[0]);
      OneHistoryKept(sha, g, s, run[0]);
      EveryStateHasOneHistory(sha, g, t, run[1..]);
    }
  }

  lemma StartHasOneHistory(sha: Hasher, g: Block, s: Net)
    requires Start(sha, g, s) && Wallets(s.peers)
    ensures OneHistory(sha, g, s)
  {
    forall u: nat | u < |s.peers| ensures PeerKnown(s.mined, s.peers[u]) {
      assert s.peers[u] in s.peers && Fresh(g, s.peers[u]);
    }
  }

  /** Nodes that agree on a tip agree on everything below it. */
  lemma OneTipOneChain(sha: Hasher, g: Block, s: Net, u: nat, v: nat)
    requires OneHistory(sha, g, s) && NoCollisions(sha, s.mined) && u < |s.peers| && v < |s.peers|
    requires |s.peers[u].chain| == |s.peers[v].chain| && Last(s.peers[u].chain).hash == Last(s.peers[v].chain).hash
    ensures s.peers[u].chain == s.peers[v].chain
  {
    hide History, NoCollisions;
    assert PeerKnown(s.mined, s.peers[u]) && PeerKnown(s.mined, s.peers[v]);
    SameHashSameChain(sha, g, s.peers, s.mined, s.peers[u].chain, s.peers[v].chain);
  }

  /** What all runs from a fresh start end in. */
  lemma OrderlyRun(sha: Hasher, g: Block, s: Net, run: seq<Action>)
    requires Start(sha, g, s) && Wallets(s.peers) && IsRun(sha, s, run) && AllOrderly(sha, run)
    requires NoCollisions(sha, Final(sha, s, run).mined)
    ensures var t := Final(sha, s, run);
            Shaped(t) && NetHonest(sha, g, t) && TidyNet(sha, t) && OneHistory(sha, g, t) && IsGenesis(sha, g)
  {
    hide Next, Enabled, NoCollisions, Shaped, NetHonest, TidyNet, OneHistory, IsGenesis, CleanText, TidyAction,
         Final, IsRun;
    assert forall p | p in s.peers :: CleanText(p.addr);
    StartIsHonest(sha, g, s);
    StartIsTidy(sha, g, s);
    StartHasOneHistory(sha, g, s);
    EveryStateIsTidy(sha, s, run);
    EveryStateIsHonest(sha, g, s, run);
    EveryStateHasOneHistory(sha, g, s, run);
  }

  /** The chain a node ends with is one of the history. */
  lemma HeldIsAssembled(sha: Hasher, g: Block, s: Net, u: nat)
    requires OneHistory(sha, g, s) && IsGenesis(sha, g) && u < |s.peers|
    ensures var c := s.peers[u].chain;
            HonestChain(sha, g, c) && ChainAssembled(sha, c) && OrdinaryChain(c)
  {
    hide IsGenesis, AllRooted;
    assert PeerKnown(s.mined, s.peers[u]);
    MinedIsAssembled(sha, g, s.mined, s.peers[u].chain);
  }

  /**
   The economy of the whole network. Whatever the interleaving, every chain
   that any node holds was assembled block by block by honest miners. As long
   as fees do not wrap, real balances on it add up to exactly what was mined;
   and if no block of it debits an account twice, fees do not wrap and every
   real balance is between 0 and that sum.
   */
  lemma NetworkEconomy(sha: Hasher, g: Block, s: Net, run: seq<Action>, u: nat, addrs: seq<string>)
    requires Start(sha, g, s) && Wallets(s.peers) && IsRun(sha, s, run) && AllOrderly(sha, run)
    requires NoCollisions(sha, Final(sha, s, run).mined) && u < |Final(sha, s, run).peers|
    ensures var c := Final(sha, s, run).peers[u].chain;
            && HonestChain(sha, g, c) && ChainAssembled(sha, c) && OrdinaryChain(c)
            && (FeesFit(c) && RealAccounts(addrs, AllTxs(c)) ==>
                  SumOfBalances(addrs, AllTxs(c)) == 50 * (|c| - 1))
            && ((forall i | 1 <= i < |c| :: DistinctSenders(c[i])) ==>
                  FeesFit(c) && forall addr | addr != COINBASE_ADDR :: Within(c, addr))
  {
    hide Next, Enabled, NoCollisions, Wallets, RealAccounts, DistinctSenders, Within, ChainAssembled,
         OrdinaryChain, FeesFit, OneHistory, IsGenesis, Shaped, NetHonest, TidyNet, Final, IsRun, ChainValid;
    OrderlyRun(sha, g, s, run);
    HeldIsAssembled(sha, g, Final(sha, s, run), u);
    var c := Final(sha, s, run).peers[u].chain;
    if FeesFit(c) && RealAccounts(addrs, AllTxs(c)) { ExactSupply(sha, addrs, c); }
    if forall i | 1 <= i < |c| :: DistinctSenders(c[i]) { Solvency(sha, c); }
  }
}
