/**
 The step system against the sequential program: a thread that nobody
 interrupts does in its steps what its method does, and a step that handles a
 line does what the handler does.
 */
module Sequential {
  import opened Machine
  import LibC
  import opened Records
  import opened Transactions
  import opened Blocks
  import opened Chains
  import opened Ledger
  import opened Mining
  import opened Protocol
  import opened Wire
  import opened Handlers
  import opened Network
  import opened Honest
  import opened Payments

  /** One node has changed, and nothing was sent. */
  function Changed(s: Net, u: nat, p: Peer): Net
    requires u < |s.peers|
  {
    s.(peers := s.peers[u := p])
  }

  // do_send

  /** When `do_send` goes on behind its tests. */
  predicate MaySend(p: Peer, amount: U64, fee: U64) {
    p.errand.Idle? && fee >= 1 && ToI64(ChainBalance(p.chain, p.addr)) >= AsSigned(AddU64(amount, fee))
  }

  /**
   `do_send`, step by step: it goes on under exactly the tests of `App.Send`, and
   then the payment that was asked for is pooled and waits to be broadcast.
   */
  lemma SendAlone(sha: Hasher, s: Net, u: nat, receiver: CString, amount: U64, fee: U64, signature: Text128)
    requires u < |s.peers|
    ensures var p, check := s.peers[u], Check(u, receiver, amount, fee, signature);
            && (Enabled(sha, s, check) <==> MaySend(p, amount, fee))
            && (MaySend(p, amount, fee) ==>
                  && Enabled(sha, Next(sha, s, check), Submit(u))
                  && exists tx ::
                       && Carries(sha, tx, p.addr, receiver, amount, fee, signature)
                       && Next(sha, s, check) == Changed(s, u, p.(errand := Paying(tx)))
                       && Next(sha, Next(sha, s, check), Submit(u))
                       == Changed(s, u, p.(pool := if |p.pool| < 100 then p.pool + [tx] else p.pool,
                                           jobs := p.jobs + [Spread(tx)])))
  {
    hide ChainBalance, MachineBalance, TxCreate;
    var p, check := s.peers[u], Check(u, receiver, amount, fee, signature);
    BalanceOf(p);
    assert s.mined + {} == s.mined;
    if MaySend(p, amount, fee) {
      var tx := Payment(sha, p, check);
      CreatedCarries(sha, p.addr, receiver, amount, fee, signature);
      var s1 := Next(sha, s, check);
      assert s1 == Changed(s, u, p.(errand := Paying(tx)));
      var s2 := Next(sha, s1, Submit(u));
      assert s2.peers[u] == p.(pool := if |p.pool| < 100 then p.pool + [tx] else p.pool, jobs := p.jobs + [Spread(tx)]);
      assert s2.peers == s.peers[u := s2.peers[u]];
    }
  }

  lemma BalanceOf(p: Peer)
    ensures ToI64(ChainBalance(p.chain, p.addr)) == MachineBalance(AllTxs(p.chain), p.addr)
  {
    MachineBalanceIsExact(AllTxs(p.chain), p.addr);
  }

  // do_mine

  /** Where the selection loop stands when all balances were read from the node's own chain. */
  predicate Selecting(p: Peer) {
    && p.errand.Collecting? && p.errand.base == p.chain && |p.errand.seen| <= |p.pool|
    && p.errand.picked == AffordableOnes(p.chain, p.pool[..|p.errand.seen|])
  }

  predicate Selected(p: Peer) {
    Selecting(p) && (|p.errand.seen| == |p.pool| || |p.errand.picked| == ROOM)
  }

  lemma ReadAlone(sha: Hasher, s: Net, u: nat)
    requires u < |s.peers| && Selecting(s.peers[u]) && !Selected(s.peers[u])
    ensures Enabled(sha, s, Read(u))
    ensures var p, q := s.peers[u], After(sha, s, Read(u));
            && Next(sha, s, Read(u)) == Changed(s, u, q) && Selecting(q) && q == p.(errand := q.errand)
            && |q.errand.seen| == |p.errand.seen| + 1 && q.errand.time == p.errand.time
  {
    hide AffordableOnes, Affordable;
    var p := s.peers[u];
    PoolStep(p.chain, p.pool, |p.errand.seen|);
    assert s.mined + {} == s.mined;
  }

  /** The loop goes on until it has all or nine. */
  lemma {:induction false} ReadsAlone(sha: Hasher, s: Net, u: nat) returns (run: seq<Action>)
    requires u < |s.peers| && Selecting(s.peers[u])
    ensures IsRun(sha, s, run)
    ensures var t := Final(sha, s, run);
            && |t.peers| == |s.peers| && t == Changed(s, u, t.peers[u]) && Selected(t.peers[u])
            && t.peers[u] == s.peers[u].(errand := t.peers[u].errand)
            && t.peers[u].errand.time == s.peers[u].errand.time
    decreases |s.peers[u].pool| - |s.peers[u].errand.seen|
  {
    hide Next, Enabled, After, AffordableOnes;
    if Selected(s.peers[u]) {
      run := [];
    } else {
      ReadAlone(sha, s, u);
      var s1 := Next(sha, s, Read(u));
      var more := ReadsAlone(sha, s1, u);
      run := [Read(u)] + more;
      assert run[1..] == more;
    }
  }

  /** What `do_mine` leaves behind when nobody else runs. */
  function Mined(p: Peer, block: Block): Peer {
    if |p.chain| < 10000 then p.(chain := p.chain + [block], pool := [], jobs := p.jobs + [Relay(block, None)])
    else p.(pool := [])
  }

  lemma StartsSelecting(sha: Hasher, s: Net, u: nat, time: I64)
    requires u < |s.peers| && s.peers[u].errand.Idle?
    ensures Enabled(sha, s, Snapshot(u, time))
    ensures var q := s.peers[u].(errand := Collecting(s.peers[u].chain, time, [], []));
            Next(sha, s, Snapshot(u, time)) == Changed(s, u, q) && Selecting(q)
  {
    assert s.mined + {} == s.mined && s.peers[u].pool[..0] == [];
  }

  lemma CollectAlone(sha: Hasher, s: Net, u: nat)
    requires u < |s.peers| && Selected(s.peers[u])
    ensures Enabled(sha, s, Collect(u))
    ensures var p := s.peers[u];
            && |p.errand.picked| <= ROOM && p.errand.picked == Select(p.chain, p.pool)
            && Next(sha, s, Collect(u))
            == Changed(s, u, p.(errand := Ready(p.chain, p.errand.time, p.errand.seen, Select(p.chain, p.pool), p.pool),
                                pool := []))
  {
    hide AffordableOnes, Select;
    var p := s.peers[u];
    SelectStops(p.chain, p.pool, |p.errand.seen|);
    assert s.mined + {} == s.mined;
  }

  lemma FinishAlone(sha: Hasher, s: Net, u: nat, block: Block)
    requires u < |s.peers| && s.peers[u].errand.Ready? && s.peers[u].errand.base == s.peers[u].chain
    requires MinedFrom(sha, Draft(sha, s.peers[u]), block)
    ensures Enabled(sha, s, Finish(u, block))
    ensures var p := s.peers[u];
            && Next(sha, s, Finish(u, block)).channels == s.channels
            && Next(sha, s, Finish(u, block)).peers
            == s.peers[u := if |p.chain| < 10000
                            then p.(chain := p.chain + [block], jobs := p.jobs + [Relay(block, None)], errand := Idle)
                            else p.(errand := Idle)]
  {
    hide MinedFrom, Accepts;
    var p := s.peers[u];
    TemplateFits(sha, p.chain, p.errand.time, p.errand.picked, p.addr, block);
  }

  /**
   `do_mine`, step by step, with nobody else running: the block that is mined from
   the selected transactions is added unless the chain is full, the mempool is
   empty, and the broadcast to everybody is still to come.
   */
  lemma MiningAlone(sha: Hasher, s: Net, u: nat, time: I64, block: Block) returns (run: seq<Action>)
    requires u < |s.peers| && s.peers[u].errand.Idle?
    requires var p := s.peers[u];
             MinedFrom(sha, Template(sha, Last(p.chain), time, Select(p.chain, p.pool), p.addr), block)
    ensures IsRun(sha, s, run)
    ensures var t := Final(sha, s, run);
            t.channels == s.channels && t.peers == s.peers[u := Mined(s.peers[u], block)]
  {
    hide Next, Enabled, MinedFrom, Select, AffordableOnes, Selecting, Template;
    var p := s.peers[u];
    StartsSelecting(sha, s, u, time);
    var s1 := Next(sha, s, Snapshot(u, time));
    var turns := ReadsAlone(sha, s1, u);
    var s2 := Final(sha, s1, turns);
    CollectAlone(sha, s2, u);
    var s3 := Next(sha, s2, Collect(u));
    FinishAlone(sha, s3, u, block);
    run := [Snapshot(u, time)] + turns + [Collect(u)] + [Finish(u, block)];
    OneStep(sha, s, Snapshot(u, time));
    OneStep(sha, s2, Collect(u));
    OneStep(sha, s3, Finish(u, block));
    RunsJoin(sha, s, [Snapshot(u, time)], turns);
    RunsJoin(sha, s, [Snapshot(u, time)] + turns, [Collect(u)]);
    RunsJoin(sha, s, [Snapshot(u, time)] + turns + [Collect(u)], [Finish(u, block)]);
  }

  // Queues

  /** What is read on channel `c` of the posts, in their order. */
  function Bound(wire: Msg -> seq<Heard>, posts: seq<Post>, c: nat): seq<Heard> {
    if posts == [] then []
    else (if posts[0].0 == c then wire(posts[0].1) else []) + Bound(wire, posts[1..], c)
  }

  lemma {:induction false} BoundSnoc(wire: Msg -> seq<Heard>, posts: seq<Post>, post: Post, c: nat)
    ensures Bound(wire, posts + [post], c) == Bound(wire, posts, c) + if post.0 == c then wire(post.1) else []
  {
    if posts == [] {
      assert posts + [post] == [post] && [post][1..] == [];
    } else {
      assert (posts + [post])[1..] == posts[1..] + [post];
      BoundSnoc(wire, posts[1..], post, c);
      var first := if posts[0].0 == c then wire(posts[0].1) else [];
      LibC.Assoc(first, Bound(wire, posts[1..], c), if post.0 == c then wire(post.1) else []);
    }
  }

  /** What is sent goes behind what is there, in the order of sending. */
  lemma {:induction false} FirstInFirstOut(wire: Msg -> seq<Heard>, channels: seq<Channel>, posts: seq<Post>, c: nat)
    requires c < |channels|
    ensures SendAll(wire, channels, posts)[c] == channels[c].(queue := channels[c].queue + Bound(wire, posts, c))
  {
    if posts == [] {
      assert channels[c].queue + [] == channels[c].queue;
    } else {
      var n := |posts| - 1;
      FirstInFirstOut(wire, channels, posts[..n], c);
      BoundSnoc(wire, posts[..n], posts[n], c);
      assert posts == posts[..n] + [posts[n]];
    }
  }

  lemma NothingToSend(wire: Msg -> seq<Heard>, channels: seq<Channel>)
    ensures SendAll(wire, channels, []) == channels
  {
  }

  // handle_message

  /** When a turn of a reading loop can be taken. */
  predicate MayRead(s: Net, c: nat) {
    && c < |s.channels| && s.channels[c].dst < |s.peers| && s.channels[c].queue != []
    && Reverse(c) in s.peers[s.channels[c].dst].table
    && !s.channels[c].queue[0].OutsideModel?
    && (s.channels[c].queue[0].Ok? && s.channels[c].queue[0].value.NewTx? ==>
          !s.peers[s.channels[c].dst].errand.Collecting?)
  }

  /** A node behind a line, and what it sends at once. */
  predicate HandledAs(sha: Hasher, p: Peer, back: nat, l: Heard, q: Peer, posts: seq<Post>) {
    match l
    case Ok(NewBlock(block)) =>
      && posts == []
      && q == if Accepts(sha, p.chain, block)
              then p.(chain := p.chain + [block], jobs := p.jobs + [Relay(block, Some(back))]) else p
    case Ok(NewTx(tx)) => posts == [] && q == p.(pool := if |p.pool| < 100 then p.pool + [tx] else p.pool)
    case Ok(RequestChain) => posts == [(back, ChainResponse(p.chain))] && q == p
    case Ok(ChainResponse(other)) =>
      && posts == []
      && q.chain == (if |other| > |p.chain| && ChainValid(sha, other) then other else p.chain)
      && q == p.(chain := q.chain)
    case Ok(Ping) => posts == [(back, Pong)] && q == p
    case _ => posts == [] && q == p
  }

  /** A line does to its receiver what `HandleMessage` does, and leaves its queue. */
  lemma LineHandled(sha: Hasher, s: Net, c: nat)
    ensures Enabled(sha, s, Deliver(c)) <==> MayRead(s, c)
    ensures MayRead(s, c) ==>
              var u, t := s.channels[c].dst, Next(sha, s, Deliver(c));
              && |t.peers| == |s.peers| && t.peers == s.peers[u := t.peers[u]]
              && HandledAs(sha, s.peers[u], Reverse(c), s.channels[c].queue[0], t.peers[u], Posts(sha, s, Deliver(c)))
              && |t.channels| == |s.channels| && t.channels[c].queue == s.channels[c].queue[1..]
              && forall d | 0 <= d < |s.channels| && d != c ::
                   t.channels[d].queue == s.channels[d].queue + Bound(s.wire, Posts(sha, s, Deliver(c)), d)
  {
    hide Accepts, ChainValid, SendAll, Bound;
    if MayRead(s, c) {
      var posts, links := Posts(sha, s, Deliver(c)), Links(s, Deliver(c));
      FirstInFirstOut(s.wire, links, posts, c);
      NothingBound(s.wire, posts, c);
      assert s.channels[c].queue[1..] + [] == s.channels[c].queue[1..];
      forall d | 0 <= d < |s.channels| && d != c
        ensures Next(sha, s, Deliver(c)).channels[d].queue == s.channels[d].queue + Bound(s.wire, posts, d)
      {
        FirstInFirstOut(s.wire, links, posts, d);
      }
      var p := s.peers[s.channels[c].dst];
      assert p.jobs + [] == p.jobs;
    }
  }

  lemma NothingBound(wire: Msg -> seq<Heard>, posts: seq<Post>, c: nat)
    requires |posts| <= 1 && (posts != [] ==> posts[0].0 == Reverse(c))
    ensures Bound(wire, posts, c) == []
  {
  }

  // What is carried out later

  predicate MayWork(s: Net, u: nat, j: nat) {
    && u < |s.peers| && j < |s.peers[u].jobs|
    && (s.peers[u].jobs[j].SyncPool? ==> !s.peers[u].errand.Collecting?)
  }

  ghost predicate SendsForJob(p: Peer, job: Job, posts: seq<Post>) {
    match job
    case Relay(block, except) => SentToAll(posts, p.table, except, NewBlock(block))
    case Spread(tx) => SentToAll(posts, p.table, None, NewTx(tx))
    case SyncPool(fd) => |posts| == |p.pool| && forall i | 0 <= i < |p.pool| :: posts[i] == (fd, NewTx(p.pool[i]))
    case AskLast => posts == if p.table == [] then [] else [(p.table[|p.table| - 1], RequestChain)]
  }

  /** A pending broadcast sends to the whole table, the mempool goes out in order,
      and the job is done. */
  lemma JobCarriedOut(sha: Hasher, s: Net, u: nat, j: nat)
    ensures Enabled(sha, s, Work(u, j)) <==> MayWork(s, u, j)
    ensures MayWork(s, u, j) ==>
              var p, posts := s.peers[u], Posts(sha, s, Work(u, j));
              && SendsForJob(p, p.jobs[j], posts)
              && Next(sha, s, Work(u, j)).peers == s.peers[u := p.(jobs := p.jobs[..j] + p.jobs[j + 1..])]
              && forall d | 0 <= d < |s.channels| ::
                   Next(sha, s, Work(u, j)).channels[d].queue == s.channels[d].queue + Bound(s.wire, posts, d)
  {
    hide SendAll, Bound, SentToAll;
    if MayWork(s, u, j) {
      var p, posts := s.peers[u], Posts(sha, s, Work(u, j));
      match p.jobs[j] {
        case Relay(block, except) => BroadcastSends(p.table, except, NewBlock(block));
        case Spread(tx) => BroadcastSends(p.table, None, NewTx(tx));
        case SyncPool(fd) => PoolPostsAre(fd, p.pool, (fd, RequestChain));
        case AskLast =>
      }
      forall d | 0 <= d < |s.channels|
        ensures Next(sha, s, Work(u, j)).channels[d].queue == s.channels[d].queue + Bound(s.wire, posts, d)
      {
        FirstInFirstOut(s.wire, s.channels, posts, d);
      }
    }
  }

  /** The relay that waits behind an accepted block sends the lines that the
      handler sends: one to everybody in the table but the one it came from. */
  lemma RelayIsHandlers(sha: Hasher, s: Net, c: nat, block: Block)
    requires MayRead(s, c) && s.channels[c].queue[0] == Ok(NewBlock(block))
    requires Accepts(sha, s.peers[s.channels[c].dst].chain, block)
    ensures Enabled(sha, s, Deliver(c)) && s.channels[c].dst < |Next(sha, s, Deliver(c)).peers|
    ensures var q := Next(sha, s, Deliver(c)).peers[s.channels[c].dst];
            && |q.jobs| == |s.peers[s.channels[c].dst].jobs| + 1
            && SentToAll(Texts(JobPosts(q, q.jobs[|q.jobs| - 1])), q.table, Some(Reverse(c)),
                         Encode(NewBlock(block)) + "\n")
  {
    hide Accepts, SendAll, Bound, SentToAll, Texts, Encode, Next;
    LineHandled(sha, s, c);
    LinesSent(Next(sha, s, Deliver(c)).peers[s.channels[c].dst].table, Some(Reverse(c)), NewBlock(block));
  }

  // Connecting

  /** What a dial changes at once. */
  lemma DialAlone(sha: Hasher, s: Net, u: nat, v: nat)
    ensures Enabled(sha, s, Dial(u, v)) <==> u < |s.peers| && v < |s.peers| && s.peers[u].errand.Idle?
    ensures Enabled(sha, s, Dial(u, v)) ==>
              var p, k, t := s.peers[u], |s.channels|, Next(sha, s, Dial(u, v));
              if |p.table| < 16
              then
                && t.peers == s.peers[u := p.(table := p.table + [k], jobs := p.jobs + [SyncPool(k), AskLast])]
                && Posts(sha, s, Dial(u, v)) == [(k, RequestChain)] && |t.channels| == k + 2
                && t.channels[k] == Channel(u, v, s.wire(RequestChain)) && t.channels[k + 1] == Channel(v, u, [])
              else
                && t.peers == s.peers[u := p.(jobs := p.jobs + [AskLast])]
                && Posts(sha, s, Dial(u, v)) == [] && t.channels == s.channels
  {
    hide SendAll;
    NothingToSend(s.wire, s.channels);
    if Enabled(sha, s, Dial(u, v)) && |s.peers[u].table| < 16 {
      var k, posts := |s.channels|, [(|s.channels|, RequestChain)];
      FirstInFirstOut(s.wire, Links(s, Dial(u, v)), posts, k);
      FirstInFirstOut(s.wire, Links(s, Dial(u, v)), posts, k + 1);
      BoundSnoc(s.wire, [], (k, RequestChain), k);
      BoundSnoc(s.wire, [], (k, RequestChain), k + 1);
      assert [] + posts == posts;
      var none: seq<Heard> := [];
      assert none + s.wire(RequestChain) == s.wire(RequestChain);
    }
  }

  /** And an accepted connection: a place in the table, a request for the chain,
      and the mempool to come. */
  lemma AcceptAlone(sha: Hasher, s: Net, c: nat)
    ensures Enabled(sha, s, AcceptDial(c)) <==>
              && c < |s.channels| && s.channels[c].src < |s.peers| && c % 2 == 1
              && c !in s.peers[s.channels[c].src].table && |s.peers[s.channels[c].src].table| < 16
    ensures Enabled(sha, s, AcceptDial(c)) ==>
              var v := s.channels[c].src;
              var p, t := s.peers[v], Next(sha, s, AcceptDial(c));
              && t.peers == s.peers[v := p.(table := p.table + [c], jobs := p.jobs + [SyncPool(c)])]
              && Posts(sha, s, AcceptDial(c)) == [(c, RequestChain)] && |t.channels| == |s.channels|
              && t.channels[c].queue == s.channels[c].queue + s.wire(RequestChain)
  {
    hide SendAll;
    if Enabled(sha, s, AcceptDial(c)) {
      FirstInFirstOut(s.wire, s.channels, [(c, RequestChain)], c);
      BoundSnoc(s.wire, [], (c, RequestChain), c);
      var none: seq<Post>, nothing: seq<Heard> := [], [];
      assert none + [(c, RequestChain)] == [(c, RequestChain)];
      assert nothing + s.wire(RequestChain) == s.wire(RequestChain);
    }
  }
}
