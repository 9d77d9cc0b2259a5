/**
 Whatever users type, and whatever the wire makes of it, everything that nodes
 hold or send is text in one line with plain signatures and hashes.
 */
module ClearNet {
  import opened Machine
  import opened Records
  import opened JsonLaws
  import opened Transactions
  import opened Blocks
  import opened Chains
  import opened Mining
  import opened Wire
  import opened Clear
  import opened Handlers
  import opened Network
  import opened Honest

  /** What can be typed is one word, and a wallet signs in hexadecimal. */
  predicate ClearAction(a: Action) {
    a.Check? ==> OneLine(CutText(a.receiver)) && OneLine(a.signature) && IsPlain(a.signature)
  }

  predicate ClearJob(job: Job) {
    match job
    case Relay(block, _) => ClearBlock(block)
    case Spread(tx) => ClearTx(tx)
    case _ => true
  }

  predicate ClearErrand(e: Errand) {
    match e
    case Idle => true
    case Paying(tx) => ClearTx(tx)
    case Collecting(base, _, _, picked) => ClearChain(base) && ClearTxs(picked)
    case Ready(base, _, _, picked, _) => ClearChain(base) && ClearTxs(picked)
  }

  predicate ClearPeer(p: Peer) {
    && OneLine(p.addr) && ClearChain(p.chain) && ClearTxs(p.pool) && ClearErrand(p.errand)
    && forall job | job in p.jobs :: ClearJob(job)
  }

  predicate ClearState(s: Net) {
    && (forall u: nat | u < |s.peers| :: ClearPeer(s.peers[u]))
    && (forall c: nat | c < |s.channels| :: forall l | l in s.channels[c].queue :: ClearLine(l))
  }

  // What nodes make is clear

  lemma HexIsClear(h: Digest)
    ensures IsPlain(h) && OneLine(h)
  {
    assert forall c | c in h :: IsHex(c);
  }

  lemma PaymentIsClear(sha: Hasher, p: Peer, a: Action)
    requires a.Check? && ClearAction(a) && OneLine(p.addr)
    ensures ClearTx(Payment(sha, p, a))
  {
    hide OneLine, IsPlain, TxPreImage;
    HexIsClear(sha(TxPreImage(Tx(p.addr, CutText(a.receiver), a.amount, a.fee, "", ""))));
  }

  lemma CoinbaseIsClear(sha: Hasher, miner: Text64, totalFees: U64)
    requires OneLine(miner)
    ensures ClearTx(Coinbase(sha, miner, totalFees))
  {
    hide TxPreImage, IsPlain;
    var tx := Coinbase(sha, miner, totalFees);
    HexIsClear(sha(TxPreImage(tx.(txHash := TxCreateCoinbase(sha, miner).txHash))));
    NameIsPlain();
  }

  lemma NameIsPlain()
    ensures IsPlain("COINBASE")
  {
  }

  lemma MinedIsClear(sha: Hasher, base: Held, time: I64, picked: Picked, miner: Text64, block: Block)
    requires ClearChain(base) && ClearTxs(picked) && OneLine(miner)
    requires MinedFrom(sha, Template(sha, Last(base), time, picked, miner), block)
    ensures ClearBlock(block)
  {
    hide ClearTx, IsPlain, OneLine, Coinbase, PreImage, NonceWorks;
    assert Last(base) in base && ClearBlock(Last(base));
    CoinbaseIsClear(sha, miner, TotalFees(picked));
    HexIsClear(sha(PreImage(Template(sha, Last(base), time, picked, miner).(nonce := block.nonce))));
  }

  // Every step keeps it

  lemma ClearEffect(sha: Hasher, chain: Held, pool: seq<Tx>, l: Heard)
    requires ClearLine(l) && ClearChain(chain) && ClearTxs(pool)
    ensures var o := Effect(sha, chain, pool, l);
            && ClearChain(o.chain) && ClearTxs(o.pool)
            && (o.relay.Some? ==> ClearBlock(o.relay.value))
            && (o.answer.Some? ==> ClearMsg(o.answer.value))
  {
    hide ClearBlock, ClearTx, Accepts, ChainValid;
  }

  lemma ClearActor(sha: Hasher, s: Net, a: Action)
    requires ClearState(s) && Enabled(sha, s, a) && ClearAction(a)
    ensures ClearPeer(After(sha, s, a))
  {
    hide ClearBlock, ClearTx, OneLine, Accepts, Affordable, Payment, MinedFrom, ClearLine, Effect;
    var p := s.peers[Actor(s, a)];
    assert ClearPeer(p);
    match a
    case Check(_, _, _, _, _) => PaymentIsClear(sha, p, a);
    case Finish(_, block) => MinedIsClear(sha, p.errand.base, p.errand.time, p.errand.picked, p.addr, block);
    case Read(_) => assert p.pool[|p.errand.seen|] in p.pool;
    case Deliver(c) =>
      assert s.channels[c].queue[0] in s.channels[c].queue;
      ClearEffect(sha, p.chain, p.pool, s.channels[c].queue[0]);
    case _ =>
  }

  lemma ClearPosts(sha: Hasher, s: Net, a: Action, post: Post)
    requires ClearState(s) && Enabled(sha, s, a) && post in Posts(sha, s, a)
    ensures ClearMsg(post.1)
  {
    hide ClearBlock, ClearTx, Effect, ClearLine, ClearMsg;
    var p := s.peers[Actor(s, a)];
    assert ClearPeer(p);
    if a.Deliver? {
      assert s.channels[a.c].queue[0] in s.channels[a.c].queue;
      ClearEffect(sha, p.chain, p.pool, s.channels[a.c].queue[0]);
    } else if a.Work? {
      assert p.jobs[a.j] in p.jobs;
      ClearJobPosts(p, p.jobs[a.j], post);
    } else {
      AskingIsClear();
    }
  }

  lemma AskingIsClear()
    ensures ClearMsg(RequestChain)
  {
  }

  lemma ClearJobPosts(p: Peer, job: Job, post: Post)
    requires ClearJob(job) && ClearTxs(p.pool) && post in JobPosts(p, job)
    ensures ClearMsg(post.1)
  {
    hide ClearBlock, ClearTx;
    match job
    case Relay(block, except) => BroadcastReaches(p.table, except, NewBlock(block), post);
    case Spread(tx) => BroadcastReaches(p.table, None, NewTx(tx), post);
    case SyncPool(fd) => PoolPostsAre(fd, p.pool, post);
    case AskLast =>
  }

  lemma ClearArrives(s: Net, m: Msg, l: Heard)
    requires TrueWire(s) && ClearMsg(m) && l in s.wire(m)
    ensures ClearLine(l)
  {
    hide ClearMsg, Reading, Encode, Decode;
    WireReads(s, m);
    ClearReading(m);
  }

  /** One step, by anybody, whatever is typed. */
  lemma ClearKept(sha: Hasher, s: Net, a: Action)
    requires TrueWire(s) && ClearState(s) && Enabled(sha, s, a) && ClearAction(a)
    ensures ClearState(Next(sha, s, a))
  {
    hide ClearPeer, ClearMsg, ClearLine, Next, After, Posts, ClearAction, Reading;
    var t := Next(sha, s, a);
    PeersStay(sha, s, a);
    ClearActor(sha, s, a);
    forall c: nat, l | c < |t.channels| && l in t.channels[c].queue ensures ClearLine(l) {
      MessagesComeFrom(sha, s, a, c);
      if m :| (c, m) in Posts(sha, s, a) && l in s.wire(m) {
        ClearPosts(sha, s, a, (c, m));
        ClearArrives(s, m, l);
      }
    }
  }

  predicate AllClear(run: seq<Action>) { forall a | a in run :: ClearAction(a) }

  /** Every state of every run. */
  lemma {:induction false} EveryStateIsClear(sha: Hasher, s: Net, run: seq<Action>)
    requires Shaped(s) && ClearState(s) && IsRun(sha, s, run) && AllClear(run)
    ensures ClearState(Final(sha, s, run)) && Shaped(Final(sha, s, run))
    decreases |run|
  {
    hide Next, Shaped, ClearState, Enabled, ClearAction;
    if run != [] {
      assert run[0] in run && forall a | a in run[1..] :: a in run;
      ShapeKept(sha, s, run[0]);
      ShapedWire(s);
      ClearKept(sha, s, run[0]);
      EveryStateIsClear(sha, Next(sha, s, run[0]), run[1..]);
    }
  }

  lemma StartIsClear(sha: Hasher, g: Block, s: Net)
    requires Start(sha, g, s) && forall p | p in s.peers :: OneLine(p.addr)
    ensures ClearState(s)
  {
    hide OneLine, NonceWorks, IsPlain, PreImage;
    HexIsClear(sha(PreImage(GenesisTemplate().(nonce := g.nonce))));
    assert IsPlain(g.prevHash) && OneLine(g.prevHash) by { ZerosAreClear(); }
    forall u: nat | u < |s.peers| ensures ClearPeer(s.peers[u]) {
      assert s.peers[u] in s.peers && Fresh(g, s.peers[u]);
    }
  }

  lemma ZerosAreClear()
    ensures IsPlain(GenesisTemplate().prevHash) && OneLine(GenesisTemplate().prevHash)
  {
  }
}
