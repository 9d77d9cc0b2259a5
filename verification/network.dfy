/**
 The network as a step system: the handlers of `src/net.c` and the threads of
 `src/main.c` on any number of nodes. A step is one lock-protected operation,
 one balance read or one turn of a reading loop; the order of steps is arbitrary.
 */
module Network {
  import opened Machine
  import opened Records
  import opened Transactions
  import opened Blocks
  import opened Chains
  import opened Ledger
  import opened Mining
  import opened Wire
  import opened Handlers

  /** A chain that a node holds; there is always a genesis block. */
  type Held = c: seq<Block> | 0 < |c| witness [Block(0, 0, [], "", 0, "")]

  /** What the selection loop may have picked. */
  type Picked = p: seq<Tx> | |p| <= 9

  /** What a thread has yet to do, once it has let go of the lock. */
  datatype Job =
    | Relay(block: Block, except: Option<nat>)  // broadcast_block_except
    | Spread(tx: Tx)                            // node_broadcast_tx
    | SyncPool(fd: nat)                         // on_peer_connected
    | AskLast                                   // node_request_chain(peer_count - 1)

  /** Where the main thread stands: in `do_send` behind the balance test, or in
      `do_mine`. `base` is the chain it took the last block from, `seen` are the
      chains its balances were read from: both are history. */
  datatype Errand =
    | Idle
    | Paying(tx: Tx)
    | Collecting(base: Held, time: I64, seen: seq<Held>, picked: Picked)
    | Ready(base: Held, time: I64, seen: seq<Held>, picked: Picked, pool: seq<Tx>)

  datatype Peer = Peer(addr: Text64, chain: Held, pool: seq<Tx>, table: seq<nat>, jobs: seq<Job>, errand: Errand)

  /** One direction of a connection, named by its number: the descriptor of
      its sender. The two directions are 2k, from the one who dialled, and 2k + 1.
      What is on its way is given as the reader will see it, line by line. */
  datatype Channel = Channel(src: nat, dst: nat, queue: seq<Heard>)

  /** `wire` is what a receiver reads of a message that is sent. `mined` is
      history: every chain at the moment its last block was mined. */
  datatype Net = Net(peers: seq<Peer>, channels: seq<Channel>, wire: Msg -> seq<Heard>, mined: set<seq<Block>>)

  /** The wire is the codec: a message is printed, framed, read and parsed again. */
  ghost predicate TrueWire(s: Net) { forall m {:trigger Reading(m)} :: s.wire(m) == Reading(m) }

  datatype Action =
    | Snapshot(u: nat, time: I64)
    | Read(u: nat)
    | Collect(u: nat)
    | Finish(u: nat, block: Block)
    | Check(u: nat, receiver: CString, amount: U64, fee: U64, signature: Text128)
    | Submit(u: nat)
    | Dial(u: nat, v: nat)
    | AcceptDial(c: nat)
    | Work(u: nat, j: nat)
    | Deliver(c: nat)

  function Last(chain: Held): Block { chain[|chain| - 1] }

  function Reverse(c: nat): nat { if c % 2 == 0 then c + 1 else c - 1 }

  // Sending

  function Push(wire: Msg -> seq<Heard>, channels: seq<Channel>, post: Post): (r: seq<Channel>)
    ensures |r| == |channels|
  {
    if post.0 < |channels| then
      var ch := channels[post.0];
      channels[post.0 := ch.(queue := ch.queue + wire(post.1))]
    else channels
  }

  function SendAll(wire: Msg -> seq<Heard>, channels: seq<Channel>, posts: seq<Post>): (r: seq<Channel>)
    ensures |r| == |channels|
  {
    if posts == [] then channels else Push(wire, SendAll(wire, channels, posts[..|posts| - 1]), posts[|posts| - 1])
  }

  /** A line that is read of a message on channel `c` among the posts. */
  ghost predicate Sent(wire: Msg -> seq<Heard>, posts: seq<Post>, c: nat, l: Heard) {
    exists m :: (c, m) in posts && l in wire(m)
  }

  /** Lines come from the queues or from the posts, and only queues change. */
  lemma {:induction false} SendAllFrame(wire: Msg -> seq<Heard>, channels: seq<Channel>, posts: seq<Post>, c: nat)
    requires c < |channels|
    ensures var ch := SendAll(wire, channels, posts)[c];
            && ch.src == channels[c].src && ch.dst == channels[c].dst
            && channels[c].queue <= ch.queue
            && (forall l | l in ch.queue :: l in channels[c].queue || Sent(wire, posts, c, l))
            && (forall m, l | (c, m) in posts && l in wire(m) :: l in ch.queue)
  {
    if posts != [] {
      var n := |posts| - 1;
      var fewer := posts[..n];
      SendAllFrame(wire, channels, fewer, c);
      assert posts == fewer + [posts[n]];
      var before, after := SendAll(wire, channels, fewer)[c], SendAll(wire, channels, posts)[c];
      forall l | l in after.queue ensures l in channels[c].queue || Sent(wire, posts, c, l) {
        if l in before.queue && Sent(wire, fewer, c, l) {
          var m :| (c, m) in fewer && l in wire(m);
          assert (c, m) in posts;
        } else if l !in before.queue {
          assert posts[n] == (c, posts[n].1) && l in wire(posts[n].1);
        }
      }
    }
  }

  // Steps

  predicate HasRoom(p: Peer) { |p.table| < MAX_PEERS }

  /** What the mining thread hashes. */
  function Draft(sha: Hasher, p: Peer): Block
    requires p.errand.Ready?
  {
    Template(sha, Last(p.errand.base), p.errand.time, p.errand.picked, p.addr)
  }

  function Payment(sha: Hasher, p: Peer, a: Action): Tx
    requires a.Check?
  {
    TxCreate(sha, p.addr, a.receiver, a.amount, a.fee).(signature := a.signature)
  }

  /** The node that takes the step. */
  predicate HasActor(s: Net, a: Action) {
    match a
    case AcceptDial(c) => c < |s.channels| && s.channels[c].src < |s.peers|
    case Deliver(c) => c < |s.channels| && s.channels[c].dst < |s.peers|
    case Dial(u, v) => u < |s.peers| && v < |s.peers|
    case _ => a.u < |s.peers|
  }

  function Actor(s: Net, a: Action): (u: nat)
    requires HasActor(s, a)
    ensures u < |s.peers|
  {
    match a
    case AcceptDial(c) => s.channels[c].src
    case Deliver(c) => s.channels[c].dst
    case _ => a.u
  }

  /** Does the line bring a transaction for the mempool? */
  predicate BringsTx(l: Heard) { l.Ok? && l.value.NewTx? }

  /** When a step can be taken. Who holds the mempool lock keeps others out. A
      line that says what the model does not know is not delivered. */
  ghost predicate Enabled(sha: Hasher, s: Net, a: Action) {
    && HasActor(s, a)
    && var p := s.peers[Actor(s, a)];
       match a
       case Snapshot(_, _) => p.errand.Idle?
       case Read(_) => p.errand.Collecting? && |p.errand.seen| < |p.pool| && |p.errand.picked| < ROOM
       case Collect(_) => p.errand.Collecting? && (|p.errand.seen| >= |p.pool| || |p.errand.picked| == ROOM)
       case Finish(_, block) => p.errand.Ready? && MinedFrom(sha, Draft(sha, p), block)
       case Check(_, _, amount, fee, _) =>
         && p.errand.Idle? && fee >= MIN_TX_FEE
         && MachineBalance(AllTxs(p.chain), p.addr) >= AsSigned(AddU64(amount, fee))
       case Submit(_) => p.errand.Paying?
       case Dial(_, _) => p.errand.Idle?
       case AcceptDial(c) => c % 2 == 1 && c !in p.table && HasRoom(p)
       case Work(_, j) => j < |p.jobs| && (p.jobs[j].SyncPool? ==> !p.errand.Collecting?)
       case Deliver(c) =>
         && s.channels[c].queue != [] && Reverse(c) in p.table
         && !s.channels[c].queue[0].OutsideModel?
         && (BringsTx(s.channels[c].queue[0]) ==> !p.errand.Collecting?)
  }

  /** What the next line of a channel does to its receiver. */
  function Delivery(sha: Hasher, s: Net, c: nat): Outcome
    requires HasActor(s, Deliver(c)) && s.channels[c].queue != []
  {
    var p := s.peers[s.channels[c].dst];
    Effect(sha, p.chain, p.pool, s.channels[c].queue[0])
  }

  /** The node that acted, afterwards. */
  function After(sha: Hasher, s: Net, a: Action): Peer
    requires Enabled(sha, s, a)
  {
    var p := s.peers[Actor(s, a)];
    match a
    case Snapshot(_, time) => p.(errand := Collecting(p.chain, time, [], []))
    case Read(_) =>
      var tx, m := p.pool[|p.errand.seen|], p.errand;
      p.(errand := Collecting(m.base, m.time, m.seen + [p.chain],
                             if Affordable(p.chain, tx) then m.picked + [tx] else m.picked))
    case Collect(_) =>
      var m := p.errand;
      p.(errand := Ready(m.base, m.time, m.seen, m.picked, p.pool), pool := [])
    case Finish(_, block) =>
      if Accepts(sha, p.chain, block) then
        p.(chain := p.chain + [block], jobs := p.jobs + [Relay(block, None)], errand := Idle)
      else p.(errand := Idle)
    case Check(_, _, _, _, _) => p.(errand := Paying(Payment(sha, p, a)))
    case Submit(_) =>
      var tx := p.errand.tx;
      p.(pool := Pooled(p.pool, tx), jobs := p.jobs + [Spread(tx)], errand := Idle)
    case Dial(_, _) =>
      if HasRoom(p) then
        p.(table := p.table + [|s.channels|], jobs := p.jobs + [SyncPool(|s.channels|), AskLast])
      else p.(jobs := p.jobs + [AskLast])
    case AcceptDial(c) => p.(table := p.table + [c], jobs := p.jobs + [SyncPool(c)])
    case Work(_, j) => p.(jobs := p.jobs[..j] + p.jobs[j + 1..])
    case Deliver(c) =>
      var o := Delivery(sha, s, c);
      p.(chain := o.chain, pool := o.pool,
         jobs := p.jobs + if o.relay.Some? then [Relay(o.relay.value, Some(Reverse(c)))] else [])
  }

  function JobPosts(p: Peer, job: Job): seq<Post> {
    match job
    case Relay(block, except) => Broadcast(p.table, except, NewBlock(block))
    case Spread(tx) => Broadcast(p.table, None, NewTx(tx))
    case SyncPool(fd) => PoolPosts(fd, p.pool)
    case AskLast => if p.table == [] then [] else [(p.table[|p.table| - 1], RequestChain)]
  }

  /** What is sent in the step. */
  function Posts(sha: Hasher, s: Net, a: Action): seq<Post>
    requires Enabled(sha, s, a)
  {
    var p := s.peers[Actor(s, a)];
    match a
    case Dial(_, _) => if HasRoom(p) then [(|s.channels|, RequestChain)] else []
    case AcceptDial(c) => [(c, RequestChain)]
    case Work(_, j) => JobPosts(p, p.jobs[j])
    case Deliver(c) => Answer(Reverse(c), Delivery(sha, s, c).answer)
    case _ => []
  }

  /** The channels before anything is sent: a new connection, or a line less. */
  function Links(s: Net, a: Action): (r: seq<Channel>)
    requires HasActor(s, a) && (a.Deliver? ==> s.channels[a.c].queue != [])
    ensures |r| >= |s.channels|
  {
    match a
    case Dial(u, v) =>
      if HasRoom(s.peers[u]) then s.channels + [Channel(u, v, []), Channel(v, u, [])] else s.channels
    case Deliver(c) => s.channels[c := s.channels[c].(queue := s.channels[c].queue[1..])]
    case _ => s.channels
  }

  /** Has the step put a new block on a chain by mining? */
  predicate Mines(sha: Hasher, s: Net, a: Action)
    requires HasActor(s, a)
  {
    a.Finish? && Accepts(sha, s.peers[a.u].chain, a.block)
  }

  function Next(sha: Hasher, s: Net, a: Action): Net
    requires Enabled(sha, s, a)
  {
    Net(s.peers[Actor(s, a) := After(sha, s, a)],
        SendAll(s.wire, Links(s, a), Posts(sha, s, a)),
        s.wire,
        s.mined + if Mines(sha, s, a) then {After(sha, s, a).chain} else {})
  }

  /** Every line afterwards was there before or is read of what the step sends. */
  lemma MessagesComeFrom(sha: Hasher, s: Net, a: Action, c: nat)
    requires Enabled(sha, s, a)
    requires c < |Next(sha, s, a).channels|
    ensures forall l | l in Next(sha, s, a).channels[c].queue ::
              (c < |s.channels| && l in s.channels[c].queue) || Sent(s.wire, Posts(sha, s, a), c, l)
  {
    hide Posts, Sent;
    SendAllFrame(s.wire, Links(s, a), Posts(sha, s, a), c);
    if a.Deliver? { assert forall l | l in s.channels[a.c].queue[1..] :: l in s.channels[a.c].queue; }
  }

  // Shape of the state

  predicate OwnsLink(s: Net, u: nat, c: nat) { c < |s.channels| && s.channels[c].src == u }

  predicate JobShaped(s: Net, u: nat, job: Job) {
    match job
    case Relay(_, except) => except.Some? ==> OwnsLink(s, u, except.value)
    case SyncPool(fd) => OwnsLink(s, u, fd)
    case _ => true
  }

  predicate PeerShaped(s: Net, u: nat)
    requires u < |s.peers|
  {
    var p := s.peers[u];
    && |p.chain| <= MAX_BLOCKS && |p.pool| <= MEMPOOL_SIZE && |p.table| <= MAX_PEERS
    && (forall c | c in p.table :: OwnsLink(s, u, c))
    && (forall i, j | 0 <= i < j < |p.table| :: p.table[i] != p.table[j])
    && (forall job | job in p.jobs :: JobShaped(s, u, job))
  }

  predicate LinkShaped(s: Net, c: nat)
    requires c < |s.channels|
  {
    && s.channels[c].src < |s.peers| && s.channels[c].dst < |s.peers|
    && Reverse(c) < |s.channels|
    && s.channels[Reverse(c)].src == s.channels[c].dst
    && forall l | l in s.channels[c].queue :: LineShaped(l)
  }

  /** No chain is read that does not fit the array. */
  predicate LineShaped(l: Heard) { l.Ok? && l.value.ChainResponse? ==> |l.value.chain| <= MAX_BLOCKS }

  ghost predicate Shaped(s: Net) {
    && TrueWire(s) && |s.channels| % 2 == 0
    && (forall u: nat | u < |s.peers| :: PeerShaped(s, u))
    && (forall c: nat | c < |s.channels| :: LinkShaped(s, c))
  }

  lemma WireReads(s: Net, m: Msg)
    requires TrueWire(s)
    ensures s.wire(m) == Reading(m)
  {
    hide Reading;
  }

  lemma ShapedWire(s: Net)
    requires Shaped(s)
    ensures TrueWire(s)
  {
  }

  lemma ShapedReads(s: Net, m: Msg)
    requires Shaped(s)
    ensures s.wire(m) == Reading(m)
  {
    hide Reading;
  }

  lemma LinkStays(sha: Hasher, s: Net, a: Action, u: nat, c: nat)
    requires Enabled(sha, s, a) && OwnsLink(s, u, c)
    ensures OwnsLink(Next(sha, s, a), u, c)
  {
    SendAllFrame(s.wire, Links(s, a), Posts(sha, s, a), c);
  }
}
