/**
 Networks whose messages survive the wire. When addresses are hexadecimal and
 users type receivers that the scanners can cope with, every block and every
 transaction that is held, pending or on its way is one that is read back as
 it was printed.
 */
module Tidy {
  import opened Machine
  import opened Records
  import opened JsonLaws
  import opened ScanLaws
  import opened BraceLaws
  import opened RoundTrip
  import opened Transactions
  import opened Blocks
  import opened Chains
  import opened Mining
  import opened Protocol
  import opened Framing
  import opened Wire
  import opened Clear
  import opened Cuts
  import opened LongLines
  import opened Handlers
  import opened Network
  import opened Honest

  /** What a wallet's address is, being hexadecimal. */
  predicate CleanText(s: string) { OneLine(s) && NoBraces(s) && !EndsInBackslash(s) }

  /** A receiver that a payment can be sent to: braces in pairs, no backslash at
      the end, one line. */
  predicate TidyReceiver(s: string) { OneLine(s) && Balanced(s) && !EndsInBackslash(s) }

  /** The steps of users who type such receivers, and of a wallet that signs in
      hexadecimal. */
  predicate TidyPayment(a: Action) {
    a.Check? ==> TidyReceiver(CutText(a.receiver)) && PlainText(a.signature) && OneLine(a.signature)
  }

  /** And what was hashed for a block that may be cut off on the wire does not
      collide with its own beginning. */
  predicate TidyAction(sha: Hasher, a: Action) {
    TidyPayment(a) && (a.Finish? ==> CutSafely(sha, a.block))
  }

  /** Blocks below this height are never cut off. */
  const SAFE_HEIGHT: nat := 171

  predicate CutSafely(sha: Hasher, block: Block) { block.index >= SAFE_HEIGHT ==> NoneShorter(sha, block) }

  predicate TidyTx(tx: Tx) { WellFormedTx(tx) && SendableTx(tx) && tx.txHash != "" }

  predicate TidyTxs(txs: seq<Tx>) { forall tx | tx in txs :: TidyTx(tx) }

  predicate TidyBlock(sha: Hasher, block: Block) {
    SendableBlock(block) && TidyTxs(block.txs) && CutSafely(sha, block)
  }

  /** All but the genesis block hold transactions, and each is numbered by its place. */
  predicate TidyBlocks(sha: Hasher, chain: seq<Block>) {
    forall i | 0 <= i < |chain| ::
      TidyBlock(sha, chain[i]) && chain[i].index == i && (i > 0 ==> chain[i].txs != [])
  }

  predicate TidyJob(sha: Hasher, job: Job) {
    match job
    case Relay(block, _) => TidyBlock(sha, block) && block.txs != []
    case Spread(tx) => TidyTx(tx)
    case _ => true
  }

  predicate TidyErrand(sha: Hasher, e: Errand) {
    match e
    case Idle => true
    case Paying(tx) => TidyTx(tx)
    case Collecting(base, _, _, picked) => TidyBlocks(sha, base) && TidyTxs(picked)
    case Ready(base, _, _, picked, _) => TidyBlocks(sha, base) && TidyTxs(picked)
  }

  predicate TidyPeer(sha: Hasher, p: Peer) {
    && CleanText(p.addr) && TidyBlocks(sha, p.chain) && TidyTxs(p.pool) && TidyErrand(sha, p.errand)
    && forall job | job in p.jobs :: TidyJob(sha, job)
  }

  predicate TidyMsg(sha: Hasher, m: Msg) {
    match m
    case NewBlock(block) => TidyBlock(sha, block) && block.txs != []
    case NewTx(tx) => TidyTx(tx)
    case ChainResponse(chain) => 1 <= |chain| <= MAX_BLOCKS && TidyBlocks(sha, chain)
    case _ => true
  }

  /** What is read can be handled, and what can be adopted of it is tidy. */
  predicate TidyLine(sha: Hasher, l: Heard) {
    match l
    case Ok(m) => if m.ChainResponse? then Adoptable(sha, m.chain) ==> TidyMsg(sha, m) else TidyMsg(sha, m)
    case Rejected => true
    case OutsideModel => false
  }

  predicate TidyNet(sha: Hasher, s: Net) {
    && (forall u: nat | u < |s.peers| :: TidyPeer(sha, s.peers[u]))
    && (forall c: nat | c < |s.channels| :: forall l | l in s.channels[c].queue :: TidyLine(sha, l))
  }

  // What nodes make is tidy

  lemma HexIsClean(h: Digest)
    ensures PlainText(h) && CleanText(h)
  {
    assert forall c | c in h :: IsHex(c);
  }

  lemma CleanThenBalanced(s: string, r: string)
    requires NoBraces(s)
    ensures Balanced(s + r) <==> Balanced(r)
  {
    NoBracesRun(s, 1);
    BraceRunConcat(s, r, 1);
  }

  lemma CleanIsTidy(s: string)
    requires CleanText(s)
    ensures TidyReceiver(s)
  {
    NoBracesRun(s, 1);
  }

  lemma MadeTxIsTidy(tx: Tx)
    requires CleanText(tx.sender) && TidyReceiver(tx.receiver)
    requires PlainText(tx.signature) && OneLine(tx.signature) && PlainText(tx.txHash) && OneLine(tx.txHash)
    requires tx.txHash != ""
    ensures TidyTx(tx)
  {
    CleanThenBalanced(tx.sender, tx.receiver);
  }

  lemma PaymentIsTidy(sha: Hasher, p: Peer, a: Action)
    requires a.Check? && TidyPayment(a) && CleanText(p.addr)
    ensures TidyTx(Payment(sha, p, a))
  {
    hide PlainText, OneLine, NoBraces, EndsInBackslash, Balanced;
    var tx := Payment(sha, p, a);
    HexIsClean(sha(TxPreImage(Tx(p.addr, CutText(a.receiver), a.amount, a.fee, "", ""))));
    MadeTxIsTidy(tx);
  }

  lemma NameIsClean()
    ensures CleanText(COINBASE_ADDR) && PlainText("COINBASE") && OneLine("COINBASE")
  {
  }

  lemma CoinbaseIsTidy(sha: Hasher, miner: Text64, totalFees: U64)
    requires CleanText(miner)
    ensures TidyTx(Coinbase(sha, miner, totalFees))
  {
    hide TxPreImage, CleanText, TidyReceiver, PlainText, OneLine;
    var tx := Coinbase(sha, miner, totalFees);
    HexIsClean(sha(TxPreImage(tx.(txHash := TxCreateCoinbase(sha, miner).txHash))));
    HexIsOneLine(tx.txHash);
    CleanIsTidy(miner);
    NameIsClean();
    MadeTxIsTidy(tx);
  }

  lemma TidyBlockOf(block: Block)
    requires PlainText(block.prevHash) && OneLine(block.prevHash) && PlainText(block.hash) && OneLine(block.hash)
    requires TidyTxs(block.txs)
    ensures SendableBlock(block)
  {
    forall i | 0 <= i < |block.txs| ensures WellFormedTx(block.txs[i]) && SendableTx(block.txs[i]) {
      assert block.txs[i] in block.txs;
    }
  }

  lemma SendableHash(block: Block)
    requires SendableBlock(block)
    ensures PlainText(block.hash) && OneLine(block.hash)
  {
  }

  lemma MinedIsTidy(sha: Hasher, base: Held, time: I64, picked: Picked, miner: Text64, block: Block)
    requires TidyBlocks(sha, base) && TidyTxs(picked) && CleanText(miner)
    requires MinedFrom(sha, Template(sha, Last(base), time, picked, miner), block)
    ensures SendableBlock(block) && TidyTxs(block.txs) && block.txs != []
  {
    hide SendableBlock, TidyTx, PlainText, OneLine, CleanText, Coinbase, PreImage, NonceWorks, CutSafely;
    SendableHash(Last(base));
    CoinbaseIsTidy(sha, miner, TotalFees(picked));
    HexIsClean(sha(PreImage(Template(sha, Last(base), time, picked, miner).(nonce := block.nonce))));
    HexIsOneLine(block.hash);
    TidyBlockOf(block);
  }

  lemma HexIsOneLine(s: string)
    requires CleanText(s)
    ensures OneLine(s)
  {
  }

  lemma GenesisIsTidy(sha: Hasher, g: Block)
    requires IsGenesis(sha, g)
    ensures TidyBlocks(sha, [g])
  {
    hide PreImage;
    HexIsClean(sha(PreImage(GenesisTemplate().(nonce := g.nonce))));
    HexIsOneLine(g.hash);
    assert forall c | c in g.prevHash :: c == '0';
    TidyBlockOf(g);
  }

  // What is read of tidy messages

  lemma TidyTxIsClear(tx: Tx)
    requires TidyTx(tx)
    ensures ClearTx(tx)
  {
  }

  lemma TidyBlockIsClear(sha: Hasher, block: Block)
    requires TidyBlock(sha, block)
    ensures ClearBlock(block) && NamedBlock(block)
  {
    hide TidyTx, CutSafely, ClearTx, WellFormedTx, OneLineTx;
    forall tx | tx in block.txs ensures ClearTx(tx) && TidyTx(tx) { TidyTxIsClear(tx); }
    NamedTxs(block);
    PlainTextIsPlain(block.prevHash);
    PlainTextIsPlain(block.hash);
  }

  lemma NamedTxs(block: Block)
    requires TidyTxs(block.txs)
    ensures WellFormedTxs(block.txs)
  {
    forall i | 0 <= i < |block.txs| ensures WellFormedTx(block.txs[i]) && block.txs[i].txHash != "" {
      assert block.txs[i] in block.txs;
    }
  }

  lemma PlainTextIsPlain(s: string)
    requires PlainText(s)
    ensures IsPlain(s)
  {
  }

  lemma TidyIsClear(sha: Hasher, m: Msg)
    requires TidyMsg(sha, m)
    ensures ClearMsg(m) && Portable(m)
    ensures m.ChainResponse? ==> Answerable(m.chain)
  {
    hide TidyBlock, SendableBlock, ClearBlock, NamedBlock, TidyTx, ClearTx, SendableTx;
    match m {
      case NewBlock(block) => TidyBlockParts(sha, block);
      case NewTx(tx) => TidyTxParts(tx);
      case ChainResponse(chain) =>
        forall i | 0 <= i < |chain| ensures SendableBlock(chain[i]) && NamedBlock(chain[i]) && ClearBlock(chain[i]) {
          TidyBlockParts(sha, chain[i]);
        }
      case _ =>
    }
  }

  lemma TidyBlockParts(sha: Hasher, block: Block)
    requires TidyBlock(sha, block)
    ensures SendableBlock(block) && ClearBlock(block) && NamedBlock(block)
  {
    hide SendableBlock, ClearBlock, NamedBlock, TidyTx;
    TidyBlockIsClear(sha, block);
  }

  lemma TidyTxParts(tx: Tx)
    requires TidyTx(tx)
    ensures SendableTx(tx) && ClearTx(tx)
  {
    hide WellFormedTx, ClearTx;
    TidyTxIsClear(tx);
  }

  /** Of a chain that was cut off, only its beginning is valid. */
  lemma AdoptableIsPrefix(sha: Hasher, chain: seq<Block>, read: seq<Block>)
    requires TidyBlocks(sha, chain) && CutChain(chain, read) && Adoptable(sha, read)
    requires LastDiffers(chain, read) ==> |read| > SAFE_HEIGHT
    ensures read <= chain
  {
    hide TidyTxs, SendableBlock, CutBlock, BlockValid, NoneShorter;
    var n := |read| - 1;
    assert LinkValid(sha, read[n - 1], read[n]);
    assert TidyBlock(sha, chain[n]) && chain[n].index == n;
    if LastDiffers(chain, read) { CutIsInvalid(sha, chain[n], read[n]); }
  }

  lemma PrefixIsTidy(sha: Hasher, chain: seq<Block>, read: seq<Block>)
    requires TidyBlocks(sha, chain) && read <= chain
    ensures TidyBlocks(sha, read)
  {
    hide TidyBlock;
    assert forall i | 0 <= i < |read| :: read[i] == chain[i];
  }

  lemma LongHasTxs(sha: Hasher, chain: seq<Block>)
    requires TidyMsg(sha, ChainResponse(chain)) && |Encode(ChainResponse(chain))| >= ROOM_FOR_LINE
    ensures LastHasTxs(chain)
  {
    hide Encode, TidyBlock;
    if |chain| <= 171 { ShortEnough(ChainResponse(chain)); }
  }

  /** At most the beginning of the chain can be adopted of what is read. */
  predicate ReadInPart(sha: Hasher, m: Msg, l: Heard) {
    && m.ChainResponse? && !l.OutsideModel?
    && (l.Ok? ==> l.value.ChainResponse? && (Adoptable(sha, l.value.chain) ==> l.value.chain < m.chain))
  }

  /** What is read is what was printed, unless more than seven characters do not
      fit the buffer: and then at most the beginning of a chain can be adopted.
      All lines behind the first say nothing. */
  ghost predicate ReadAsPrinted(sha: Hasher, s: Net, m: Msg) {
    var lines := s.wire(m);
    && |lines| > 0 && (forall q | 0 < q < |lines| :: lines[q] == Rejected)
    && (lines[0] == Ok(m) <==> |Encode(m)| <= MAX_MSG_SIZE + 6)
    && (lines[0] == Ok(m) || ReadInPart(sha, m, lines[0]))
  }

  lemma ShortAsPrinted(sha: Hasher, s: Net, m: Msg)
    requires Shaped(s) && TidyMsg(sha, m) && |Encode(m)| <= MAX_MSG_SIZE - 2
    ensures ReadAsPrinted(sha, s, m)
  {
    hide Encode, Reading, Portable, TidyMsg, Adoptable;
    TidyIsClear(sha, m);
    ShapedReads(s, m);
    PortableArrives(m);
  }

  lemma LongAsPrinted(sha: Hasher, s: Net, chain: seq<Block>)
    requires Shaped(s) && TidyMsg(sha, ChainResponse(chain))
    requires |Encode(ChainResponse(chain))| > MAX_MSG_SIZE - 2
    ensures ReadAsPrinted(sha, s, ChainResponse(chain))
  {
    hide Encode, Reading, ClearMsg, Answerable, Decode, Portable, Shaped, CutChain, TidyBlock, Adoptable, LastDiffers;
    var m := ChainResponse(chain);
    TidyIsClear(sha, m);
    ShapedReads(s, m);
    ClearReading(m);
    LongHasTxs(sha, chain);
    var r := LongResponse(chain);
    if r.Ok? {
      if Adoptable(sha, r.value) { AdoptableIsPrefix(sha, chain, r.value); }
      assert r.value != chain && r.value <= chain ==> r.value < chain;
    }
  }

  /** How tidy messages are read. */
  lemma TidyReading(sha: Hasher, s: Net, m: Msg)
    requires Shaped(s) && TidyMsg(sha, m)
    ensures ReadAsPrinted(sha, s, m)
  {
    hide Encode, TidyBlocks, TidyBlock, Shaped, ReadAsPrinted;
    if |Encode(m)| <= MAX_MSG_SIZE - 2 {
      ShortAsPrinted(sha, s, m);
    } else {
      if !m.ChainResponse? { ShortEnough(m); }
      LongAsPrinted(sha, s, m.chain);
    }
  }

  // Every step keeps the network tidy

  lemma TidyArrives(sha: Hasher, s: Net, m: Msg)
    requires Shaped(s) && TidyMsg(sha, m)
    ensures Undistorted(sha, s, m) && forall l | l in s.wire(m) :: TidyLine(sha, l)
  {
    hide Encode, Shaped, TidyBlock;
    TidyReading(sha, s, m);
    var lines := s.wire(m);
    forall l | l in lines
      ensures TidyLine(sha, l)
      ensures l.Ok? && l.value.ChainResponse? && Adoptable(sha, l.value.chain) ==>
                m.ChainResponse? && l.value.chain <= m.chain
    {
      if l.Ok? {
        assert l == lines[0];
        if l != Ok(m) && Adoptable(sha, l.value.chain) { PrefixIsTidy(sha, m.chain, l.value.chain); }
      }
    }
  }

  lemma TidyEffect(sha: Hasher, chain: Held, pool: seq<Tx>, l: Heard)
    requires TidyLine(sha, l) && TidyBlocks(sha, chain) && TidyTxs(pool) && |chain| <= MAX_BLOCKS
    ensures var o := Effect(sha, chain, pool, l);
            && TidyBlocks(sha, o.chain) && TidyTxs(o.pool)
            && (o.relay.Some? ==> TidyBlock(sha, o.relay.value) && o.relay.value.txs != [])
            && (o.answer.Some? ==> TidyMsg(sha, o.answer.value))
  {
    hide TidyBlock, TidyTx, LinkValid;
    if l.Ok? && l.value.NewBlock? && Accepts(sha, chain, l.value.block) { AddedIsTidy(sha, chain, l.value.block); }
  }

  lemma AddedIsTidy(sha: Hasher, chain: Held, block: Block)
    requires TidyBlocks(sha, chain) && TidyBlock(sha, block) && block.txs != [] && Accepts(sha, chain, block)
    ensures TidyBlocks(sha, chain + [block])
  {
    hide TidyBlock, LinkValid;
    var n := |chain| - 1;
    assert chain[n].index == n;
  }

  lemma TidyActor(sha: Hasher, s: Net, a: Action)
    requires Shaped(s) && TidyNet(sha, s) && Enabled(sha, s, a) && TidyAction(sha, a)
    ensures TidyPeer(sha, After(sha, s, a))
  {
    hide TidyTx, CleanText, Shaped, Affordable, Payment, MinedFrom, TidyLine, Effect, TidyPayment, SendableBlock,
         NoneShorter, LinkValid;
    var p := s.peers[Actor(s, a)];
    assert TidyPeer(sha, p);
    match a
    case Check(_, _, _, _, _) => PaymentIsTidy(sha, p, a);
    case Finish(_, block) =>
      MinedIsTidy(sha, p.errand.base, p.errand.time, p.errand.picked, p.addr, block);
      if Accepts(sha, p.chain, block) { AddedIsTidy(sha, p.chain, block); }
    case Read(_) => assert p.pool[|p.errand.seen|] in p.pool;
    case Deliver(c) =>
      assert s.channels[c].queue[0] in s.channels[c].queue;
      ChainBound(s, Actor(s, a));
      TidyEffect(sha, p.chain, p.pool, s.channels[c].queue[0]);
    case _ =>
  }

  lemma ChainBound(s: Net, u: nat)
    requires Shaped(s) && u < |s.peers|
    ensures |s.peers[u].chain| <= MAX_BLOCKS
  {
    assert PeerShaped(s, u);
  }

  lemma TidyPosts(sha: Hasher, s: Net, a: Action, post: Post)
    requires Shaped(s) && TidyNet(sha, s) && Enabled(sha, s, a) && post in Posts(sha, s, a)
    ensures TidyMsg(sha, post.1)
  {
    hide TidyBlock, TidyTx, CleanText, Shaped, Effect, TidyMsg, TidyLine, TidyBlocks;
    var p := s.peers[Actor(s, a)];
    assert TidyPeer(sha, p);
    if a.Deliver? {
      assert s.channels[a.c].queue[0] in s.channels[a.c].queue;
      ChainBound(s, Actor(s, a));
      TidyEffect(sha, p.chain, p.pool, s.channels[a.c].queue[0]);
    } else if a.Work? {
      assert p.jobs[a.j] in p.jobs;
      TidyJobPosts(sha, p, p.jobs[a.j], post);
    } else {
      AskingIsTidy(sha);
    }
  }

  lemma AskingIsTidy(sha: Hasher)
    ensures TidyMsg(sha, RequestChain)
  {
  }

  lemma TidyJobPosts(sha: Hasher, p: Peer, job: Job, post: Post)
    requires TidyJob(sha, job) && TidyTxs(p.pool) && post in JobPosts(p, job)
    ensures TidyMsg(sha, post.1)
  {
    hide TidyBlock, TidyTx;
    match job
    case Relay(block, except) => BroadcastReaches(p.table, except, NewBlock(block), post);
    case Spread(tx) => BroadcastReaches(p.table, None, NewTx(tx), post);
    case SyncPool(fd) => PoolPostsAre(fd, p.pool, post);
    case AskLast =>
  }

  /** One step keeps the network tidy, and the wire distorts no chain in it. */
  lemma TidinessKept(sha: Hasher, s: Net, a: Action)
    requires Shaped(s) && TidyNet(sha, s) && Enabled(sha, s, a) && TidyAction(sha, a)
    ensures TidyNet(sha, Next(sha, s, a)) && SendsUndistorted(sha, s, a)
  {
    hide TidyPeer, TidyMsg, TidyLine, Next, After, Posts, Shaped, Undistorted, TidyAction;
    var t := Next(sha, s, a);
    PeersStay(sha, s, a);
    TidyActor(sha, s, a);
    forall post | post in Posts(sha, s, a) ensures Undistorted(sha, s, post.1) {
      TidyPosts(sha, s, a, post);
      TidyArrives(sha, s, post.1);
    }
    forall c: nat, l | c < |t.channels| && l in t.channels[c].queue ensures TidyLine(sha, l) {
      MessagesComeFrom(sha, s, a, c);
      if m :| (c, m) in Posts(sha, s, a) && l in s.wire(m) {
        TidyPosts(sha, s, a, (c, m));
        TidyArrives(sha, s, m);
      }
    }
  }

  predicate AllTidy(sha: Hasher, run: seq<Action>) { forall a | a in run :: TidyAction(sha, a) }

  /** So on every run of tidy users the wire distorts no chain. */
  lemma {:induction false} EveryStateIsTidy(sha: Hasher, s: Net, run: seq<Action>)
    requires Shaped(s) && TidyNet(sha, s) && IsRun(sha, s, run) && AllTidy(sha, run)
    ensures IsUndistorted(sha, s, run) && TidyNet(sha, Final(sha, s, run)) && Shaped(Final(sha, s, run))
    decreases |run|
  {
    hide Next, Shaped, TidyNet, Enabled, SendsUndistorted, TidyAction;
    if run != [] {
      assert run[0] in run && forall a | a in run[1..] :: a in run;
      ShapeKept(sha, s, run[0]);
      TidinessKept(sha, s, run[0]);
      EveryStateIsTidy(sha, Next(sha, s, run[0]), run[1..]);
    }
  }

  lemma StartIsTidy(sha: Hasher, g: Block, s: Net)
    requires Start(sha, g, s) && forall p | p in s.peers :: CleanText(p.addr)
    ensures TidyNet(sha, s)
  {
    hide CleanText, TidyBlocks, IsGenesis;
    GenesisIsTidy(sha, g);
    forall u: nat | u < |s.peers| ensures TidyPeer(sha, s.peers[u]) {
      assert s.peers[u] in s.peers && Fresh(g, s.peers[u]);
    }
  }

  /**
   The honest network, through the codec: from a fresh start, whatever the
   interleaving, all chains held are honest, and so are those on their way that
   can be adopted; and everything that is sent next is read as it was printed.
   */
  lemma HonestThroughTheWire(sha: Hasher, g: Block, s: Net, run: seq<Action>)
    requires Start(sha, g, s) && IsRun(sha, s, run) && AllTidy(sha, run)
    requires forall p | p in s.peers :: CleanText(p.addr)
    ensures Shaped(Final(sha, s, run)) && NetHonest(sha, g, Final(sha, s, run))
    ensures forall a, post | Enabled(sha, Final(sha, s, run), a) && post in Posts(sha, Final(sha, s, run), a) ::
              ReadAsPrinted(sha, s, post.1)
  {
    hide TidyNet, NetHonest, Shaped, CleanText, Start, ReadAsPrinted, TidyAction, Final, Next, Enabled, IsRun, Posts,
         IsUndistorted;
    StartIsHonest(sha, g, s);
    StartIsTidy(sha, g, s);
    EveryStateIsTidy(sha, s, run);
    EveryStateIsHonest(sha, g, s, run);
    var t := Final(sha, s, run);
    forall a, post | Enabled(sha, t, a) && post in Posts(sha, t, a) ensures ReadAsPrinted(sha, s, post.1) {
      TidyPosts(sha, t, a, post);
      TidyReading(sha, s, post.1);
    }
  }
}
