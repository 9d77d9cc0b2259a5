/**
 What becomes of a block that the wire alters: nobody takes it, and its miner
 is left alone with it.
 */
module Stranding {
  import opened Machine
  import opened Records
  import opened JsonLaws
  import opened Protocol
  import opened Blocks
  import opened Chains
  import opened Forks
  import opened Wire
  import opened Clear
  import opened Carry
  import opened Survival
  import opened Relaying
  import opened Handlers
  import opened Network
  import opened Honest
  import opened ClearNet
  import opened Flood

  /** A line that nobody who holds one of the chains takes a block from. */
  predicate Refused(sha: Hasher, chains: seq<Held>, l: Heard) {
    l.Ok? ==> l.value.NewTx? || (l.value.NewBlock? && forall c | c in chains :: !Accepts(sha, c, l.value.block))
  }

  predicate AllRefused(sha: Hasher, chains: seq<Held>, lines: seq<Heard>) {
    forall l | l in lines :: Refused(sha, chains, l)
  }

  predicate StrandedMsg(block: Block, m: Msg) { m == NewBlock(block) || m.NewTx? }

  predicate StrandedJob(block: Block, job: Job) { (job.Relay? && job.block == block) || job.Spread? }

  /** Every node holds what it is to keep. */
  ghost predicate Stranded(sha: Hasher, s: Net, chains: seq<Held>, block: Block) {
    && TrueWire(s) && ClearState(s) && |chains| == |s.peers| && AllRefused(sha, chains, s.wire(NewBlock(block)))
    && (forall u: nat | u < |s.peers| ::
          && s.peers[u].chain == chains[u] && !s.peers[u].errand.Ready?
          && forall job | job in s.peers[u].jobs :: StrandedJob(block, job))
    && (forall c: nat | c < |s.channels| :: AllRefused(sha, chains, s.channels[c].queue))
  }

  lemma RefusedEffect(sha: Hasher, chains: seq<Held>, chain: Held, pool: seq<Tx>, l: Heard)
    requires Refused(sha, chains, l) && chain in chains
    ensures var o := Effect(sha, chain, pool, l); o.chain == chain && o.relay == None && o.answer == None
  {
    hide Accepts, ChainValid;
  }

  /** A transaction is read as one, if it is read at all. */
  lemma TxIsRefused(sha: Hasher, s: Net, chains: seq<Held>, tx: Tx)
    requires TrueWire(s) && ClearTx(tx)
    ensures AllRefused(sha, chains, s.wire(NewTx(tx)))
  {
    hide Reading, Encode, Decode, ClearTx;
    WireReads(s, NewTx(tx));
    ClearReading(NewTx(tx));
    LongestLine(NewTx(tx));
  }

  lemma FloodIsClear(a: Action)
    requires InFlood(a)
    ensures ClearAction(a)
  {
  }

  lemma StaysStranded(sha: Hasher, s: Net, chains: seq<Held>, block: Block, a: Action)
    requires Stranded(sha, s, chains, block) && Enabled(sha, s, a) && InFlood(a)
    ensures Stranded(sha, Next(sha, s, a), chains, block)
  {
    hide Next, After, Refused, StrandedMsg, Posts, InFlood, ClearState, ClearMsg, ClearAction, TrueWire;
    var t, u := Next(sha, s, a), Actor(s, a);
    PeersStay(sha, s, a);
    FloodIsClear(a);
    ClearKept(sha, s, a);
    assert TrueWire(t) by { SameWire(s, t); }
    ActorStaysStranded(sha, s, chains, block, a);
    forall c: nat, l | c < |t.channels| && l in t.channels[c].queue ensures Refused(sha, chains, l) {
      MessagesComeFrom(sha, s, a, c);
      if m :| (c, m) in Posts(sha, s, a) && l in s.wire(m) {
        PostsStayStranded(sha, s, chains, block, a, (c, m));
        ClearPosts(sha, s, a, (c, m));
        PostIsRefused(sha, s, chains, block, m);
      }
    }
  }

  lemma SameWire(s: Net, t: Net)
    requires TrueWire(s) && s.wire == t.wire
    ensures TrueWire(t)
  {
    hide Reading;
  }

  lemma PostIsRefused(sha: Hasher, s: Net, chains: seq<Held>, block: Block, m: Msg)
    requires TrueWire(s) && ClearMsg(m) && StrandedMsg(block, m) && AllRefused(sha, chains, s.wire(NewBlock(block)))
    ensures AllRefused(sha, chains, s.wire(m))
  {
    hide TrueWire, AllRefused, ClearTx;
    if m.NewTx? { TxIsRefused(sha, s, chains, m.tx); }
  }

  lemma ActorStaysStranded(sha: Hasher, s: Net, chains: seq<Held>, block: Block, a: Action)
    requires Stranded(sha, s, chains, block) && Enabled(sha, s, a) && InFlood(a)
    ensures var p, q := s.peers[Actor(s, a)], After(sha, s, a);
            q.chain == p.chain && !q.errand.Ready? && forall job | job in q.jobs :: StrandedJob(block, job)
  {
    hide Refused, Effect, Payment, ClearState, TrueWire;
    var p := s.peers[Actor(s, a)];
    if a.Deliver? {
      var l := s.channels[a.c].queue[0];
      assert l in s.channels[a.c].queue && p.chain in chains && Refused(sha, chains, l);
      RefusedEffect(sha, chains, p.chain, p.pool, l);
    }
  }

  lemma PostsStayStranded(sha: Hasher, s: Net, chains: seq<Held>, block: Block, a: Action, post: Post)
    requires Stranded(sha, s, chains, block) && Enabled(sha, s, a) && InFlood(a) && post in Posts(sha, s, a)
    ensures StrandedMsg(block, post.1)
  {
    hide Refused, Effect, After, Next, ClearState, TrueWire;
    var p := s.peers[Actor(s, a)];
    if a.Deliver? {
      var l := s.channels[a.c].queue[0];
      assert l in s.channels[a.c].queue && p.chain in chains && Refused(sha, chains, l);
      RefusedEffect(sha, chains, p.chain, p.pool, l);
    } else if a.Work? {
      var job := p.jobs[a.j];
      assert job in p.jobs;
      match job
      case Relay(b, except) => BroadcastReaches(p.table, except, NewBlock(b), post);
      case Spread(tx) => BroadcastReaches(p.table, None, NewTx(tx), post);
      case _ =>
    }
  }

  lemma {:induction false} StrandedRuns(sha: Hasher, s: Net, chains: seq<Held>, block: Block, run: seq<Action>)
    requires Stranded(sha, s, chains, block) && IsRun(sha, s, run) && forall a | a in run :: InFlood(a)
    ensures Stranded(sha, Final(sha, s, run), chains, block)
    decreases |run|
  {
    hide Stranded, Next, Enabled, InFlood;
    if run != [] {
      assert run[0] in run && forall a | a in run[1..] :: a in run;
      StaysStranded(sha, s, chains, block, run[0]);
      StrandedRuns(sha, Next(sha, s, run[0]), chains, block, run[1..]);
    }
  }

  /** The chains that are held when the block has been mined. */
  function WithMined(s: Net, u: nat, block: Block): (r: seq<Held>)
    requires u < |s.peers|
    ensures |r| == |s.peers|
  {
    ChainsOf(s)[u := s.peers[u].chain + [block]]
  }

  /**
   A block that nobody accepts as it is read stays with its miner: at no time
   does anybody else's chain change.
   */
  lemma NobodyTakesIt(sha: Hasher, s: Net, a: Action, run: seq<Action>)
    requires Quiet(s) && ClearState(s) && Enabled(sha, s, a) && a.Finish? && Mines(sha, s, a)
    requires forall u: nat | u < |s.peers| && u != a.u :: !s.peers[u].errand.Ready?
    requires AllRefused(sha, WithMined(s, a.u, a.block), s.wire(NewBlock(a.block)))
    requires IsRun(sha, Next(sha, s, a), run) && forall b | b in run :: InFlood(b)
    ensures ChainsOf(Final(sha, Next(sha, s, a), run)) == WithMined(s, a.u, a.block)
  {
    hide Next, Mines, Final, IsRun, Refused, Shaped, ClearState, TrueWire;
    var t, chains := Next(sha, s, a), WithMined(s, a.u, a.block);
    AfterMining(sha, s, a);
    ShapedWire(s);
    SameWire(s, t);
    ClearKept(sha, s, a);
    assert Stranded(sha, t, chains, a.block) by {
      forall u: nat | u < |t.peers| && u == a.u ensures t.peers[u].jobs == [Relay(a.block, None)] {}
    }
    StrandedRuns(sha, t, chains, a.block, run);
  }

  // The wire decides

  lemma {:induction false} LostHashShortens(txs: seq<Tx>, k: nat)
    requires k < |txs| && txs[k].txHash == ""
    ensures |Hashes(txs)| <= 64 * (|txs| - 1)
  {
    var n := |txs| - 1;
    if k < n { LostHashShortens(txs[..n], k); } else { HashesAtMost(txs[..n]); }
  }

  lemma {:induction false} HashesAtMost(txs: seq<Tx>)
    ensures |Hashes(txs)| <= 64 * |txs|
  {
    if txs != [] { HashesAtMost(txs[..|txs| - 1]); }
  }

  /** Blocks as miners make them, whatever the addresses hold. */
  predicate Made(block: Block) {
    && FullHashes(block) && IsPlain(block.prevHash) && IsPlain(block.hash)
    && AllHashed(block.txs) && AllBare(block.txs) && OneLineBlock(block)
  }

  /** The wire does not alter the block. */
  predicate ComesThrough(block: Block) { Carried(block.txs) && Survive(block.txs) }

  /** What is read of the block does not collide with it. */
  ghost predicate ReadApart(sha: Hasher, block: Block) {
    forall read | Reading(NewBlock(block)) == [Ok(NewBlock(read))] :: NoCollisionBetween(sha, block, read)
  }

  /** A block that has lost a hash on the way is valid nowhere, unless it collides
      with what was mined. */
  lemma AlteredIsInvalid(sha: Hasher, block: Block, read: Block)
    requires Made(block) && RelayedAs(block, read) && read != block
    requires BlockValid(sha, block) && NoCollisionBetween(sha, block, read)
    ensures !BlockValid(sha, read)
  {
    hide Survive, Carried, AllHashed, AllBare, OneLineBlock;
    var k :| 0 <= k < |read.txs| && read.txs[k].txHash == "";
    LostHashShortens(read.txs, k);
    HashesLength(block.txs);
    assert Header(read) == Header(block);
  }

  /**
   A mined block that does not come through the scans as it is reaches nobody,
   however the nodes are connected. One that does reaches whom
   FloodReachesExactly says.
   */
  lemma AlteredBlockStrands(sha: Hasher, s: Net, a: Action, run: seq<Action>)
    requires Quiet(s) && ClearState(s) && Enabled(sha, s, a) && a.Finish? && Mines(sha, s, a)
    requires forall u: nat | u < |s.peers| && u != a.u :: !s.peers[u].errand.Ready?
    requires Made(a.block) && !ComesThrough(a.block) && ReadApart(sha, a.block)
    requires IsRun(sha, Next(sha, s, a), run) && forall b | b in run :: InFlood(b)
    ensures ChainsOf(Final(sha, Next(sha, s, a), run)) == WithMined(s, a.u, a.block)
  {
    hide Next, Final, IsRun, Shaped, Survive, Carried, AllHashed, AllBare, OneLineBlock, BlockValid, Reading,
         ClearState, NoCollisionBetween, FullHashes, MinedFrom, Quiet, InFlood, Mines;
    MinedIsChecked(sha, s, a);
    var read := RelaySurvivesExactly(a.block);
    AlteredIsInvalid(sha, a.block, read);
    QuietReads(s, NewBlock(a.block));
    InvalidIsRefused(sha, WithMined(s, a.u, a.block), read);
    NobodyTakesIt(sha, s, a, run);
  }

  lemma InvalidIsRefused(sha: Hasher, chains: seq<Held>, block: Block)
    requires !BlockValid(sha, block)
    ensures AllRefused(sha, chains, [Ok(NewBlock(block))])
  {
  }

  lemma QuietReads(s: Net, m: Msg)
    requires Quiet(s)
    ensures s.wire(m) == Reading(m)
  {
    hide Reading;
    ShapedReads(s, m);
  }

  lemma MinedIsChecked(sha: Hasher, s: Net, a: Action)
    requires Enabled(sha, s, a) && a.Finish? && Mines(sha, s, a)
    ensures BlockValid(sha, a.block)
  {
  }

  /** And a block that comes through is one that floods. */
  lemma SurvivorFloods(s: Net, block: Block)
    requires TrueWire(s) && Made(block) && ComesThrough(block)
    ensures Intact(s, NewBlock(block))
  {
    hide Survive, Carried, AllHashed, AllBare, OneLineBlock, Reading;
    var read := RelaySurvivesExactly(block);
    WireReads(s, NewBlock(block));
  }
}
