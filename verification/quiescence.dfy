/**
 The network falls silent: with nobody mining, sending or connecting, every
 run of deliveries and pending broadcasts is finite, by a measure that each
 line that is handled and each broadcast decreases.
 */
module Quiescence {
  import opened Machine
  import opened Records
  import opened Chains
  import opened Wire
  import opened Clear
  import opened Handlers
  import opened Network
  import opened Honest
  import opened ClearNet

  function Sum<T>(s: seq<T>, f: T -> nat): nat {
    if s == [] then 0 else Sum(s[..|s| - 1], f) + f(s[|s| - 1])
  }

  lemma {:induction false} SumConcat<T>(s: seq<T>, t: seq<T>, f: T -> nat)
    ensures Sum(s + t, f) == Sum(s, f) + Sum(t, f)
  {
    if t == [] {
      assert s + t == s;
    } else {
      assert (s + t)[..|s + t| - 1] == s + t[..|t| - 1];
      SumConcat(s, t[..|t| - 1], f);
    }
  }

  lemma SumOfOne<T>(x: T, f: T -> nat)
    ensures Sum([x], f) == f(x)
  {
    assert [x][..0] == [];
  }

  lemma SumSplits<T>(s: seq<T>, i: nat, f: T -> nat)
    requires i < |s|
    ensures Sum(s, f) == Sum(s[..i] + s[i + 1..], f) + f(s[i])
  {
    var front, x, back := s[..i], s[i], s[i + 1..];
    assert s == front + [x] + back;
    SumConcat(front + [x], back, f);
    SumConcat(front, [x], f);
    SumOfOne(x, f);
    SumConcat(front, back, f);
  }

  lemma SumUpdates<T>(s: seq<T>, i: nat, x: T, f: T -> nat)
    requires i < |s|
    ensures Sum(s[i := x], f) == Sum(s, f) - f(s[i]) + f(x)
  {
    SumSplits(s, i, f);
    SumSplits(s[i := x], i, f);
    assert s[i := x][..i] + s[i := x][i + 1..] == s[..i] + s[i + 1..];
  }

  lemma {:induction false} SumOfOnes<T>(s: seq<T>, f: T -> nat)
    requires forall x | x in s :: f(x) == 1
    ensures Sum(s, f) == |s|
  {
    if s != [] { SumOfOnes(s[..|s| - 1], f); }
  }

  // Weights

  /** No answer has more lines than this, as the reader sees them. */
  const ANSWER_LINES: nat := 59

  /** A line that is answered weighs as much as the lines of its answer, and one
      more. */
  function LineWeight(l: Heard): nat {
    if l.Ok? && l.value.RequestChain? then ANSWER_LINES + 1
    else if l.Ok? && l.value.Ping? then 2
    else 1
  }

  function PostWeight(wire: Msg -> seq<Heard>): Post -> nat { (post: Post) => Sum(wire(post.1), LineWeight) }

  /** What the lines of a clear message weigh at most. */
  function MsgBound(m: Msg): nat {
    match m
    case RequestChain => ANSWER_LINES + 1
    case ChainResponse(_) => ANSWER_LINES
    case Ping => 2
    case _ => 1
  }

  /** A pending broadcast weighs as much as all it can send, and one more. */
  function JobWeight(job: Job): nat {
    match job
    case Relay(_, _) => MAX_PEERS + 1
    case Spread(_) => MAX_PEERS + 1
    case SyncPool(_) => MEMPOOL_SIZE + 1
    case AskLast => ANSWER_LINES + 2
  }

  /** How many blocks still fit behind a chain. */
  function Room(chain: seq<Block>): nat { if |chain| <= MAX_BLOCKS then MAX_BLOCKS - |chain| else 0 }

  /** Every block that can still be accepted may cause one broadcast. */
  function PeerWeight(p: Peer): nat {
    (MAX_PEERS + 1) * Room(p.chain) + Sum(p.jobs, JobWeight)
  }

  function ChannelWeight(ch: Channel): nat { Sum(ch.queue, LineWeight) }

  function Measure(s: Net): nat { Sum(s.peers, PeerWeight) + Sum(s.channels, ChannelWeight) }

  /** Only a question is read as one, and its line is short. */
  lemma ClearWeighs(s: Net, m: Msg)
    requires Shaped(s) && ClearMsg(m) && (m.ChainResponse? ==> |m.chain| <= MAX_BLOCKS)
    ensures Sum(s.wire(m), LineWeight) <= MsgBound(m)
  {
    hide Encode, Decode, Reading, ClearMsg;
    ShapedReads(s, m);
    ClearReading(m);
    LongestLine(m);
    var lines := s.wire(m);
    if m.ChainResponse? {
      assert forall q | 0 <= q < |lines| :: LineWeight(lines[q]) == 1;
      SumOfOnes(lines, LineWeight);
    } else {
      assert lines == [lines[0]];
      SumOfOne(lines[0], LineWeight);
    }
  }

  lemma PushWeighs(wire: Msg -> seq<Heard>, channels: seq<Channel>, post: Post)
    ensures Sum(Push(wire, channels, post), ChannelWeight)
            <= Sum(channels, ChannelWeight) + Sum(wire(post.1), LineWeight)
  {
    if post.0 < |channels| {
      var ch := channels[post.0];
      SumUpdates(channels, post.0, ch.(queue := ch.queue + wire(post.1)), ChannelWeight);
      SumConcat(ch.queue, wire(post.1), LineWeight);
    }
  }

  lemma {:induction false} SendAllWeighs(wire: Msg -> seq<Heard>, channels: seq<Channel>, posts: seq<Post>)
    ensures Sum(SendAll(wire, channels, posts), ChannelWeight)
            <= Sum(channels, ChannelWeight) + Sum(posts, PostWeight(wire))
  {
    if posts != [] {
      var n := |posts| - 1;
      SendAllWeighs(wire, channels, posts[..n]);
      PushWeighs(wire, SendAll(wire, channels, posts[..n]), posts[n]);
    }
  }

  lemma {:induction false} BroadcastWeighs(wire: Msg -> seq<Heard>, peers: seq<nat>, except: Option<nat>, m: Msg)
    requires Sum(wire(m), LineWeight) <= 1
    ensures Sum(Broadcast(peers, except, m), PostWeight(wire)) <= |peers|
  {
    if peers != [] {
      var n := |peers| - 1;
      BroadcastWeighs(wire, peers[..n], except, m);
      if except != Some(peers[n]) {
        SumConcat(Broadcast(peers[..n], except, m), [(peers[n], m)], PostWeight(wire));
        SumOfOne((peers[n], m), PostWeight(wire));
      } else {
        assert Broadcast(peers[..n], except, m) + [] == Broadcast(peers[..n], except, m);
      }
    }
  }

  lemma {:induction false} PoolPostsWeigh(s: Net, fd: nat, pool: seq<Tx>)
    requires Shaped(s) && ClearTxs(pool)
    ensures Sum(PoolPosts(fd, pool), PostWeight(s.wire)) <= |pool|
  {
    hide Shaped, ClearTx;
    if pool != [] {
      var n := |pool| - 1;
      assert pool[n] in pool;
      PoolPostsWeigh(s, fd, pool[..n]);
      SumConcat(PoolPosts(fd, pool[..n]), [(fd, NewTx(pool[n]))], PostWeight(s.wire));
      SumOfOne((fd, NewTx(pool[n])), PostWeight(s.wire));
      ClearWeighs(s, NewTx(pool[n]));
    }
  }

  lemma JobPostsWeigh(s: Net, p: Peer, job: Job)
    requires Shaped(s) && ClearTxs(p.pool) && ClearJob(job)
    requires |p.table| <= MAX_PEERS && |p.pool| <= MEMPOOL_SIZE
    ensures Sum(JobPosts(p, job), PostWeight(s.wire)) < JobWeight(job)
  {
    hide Broadcast, PoolPosts, Shaped, ClearTx, ClearBlock;
    match job
    case Relay(block, except) =>
      ClearWeighs(s, NewBlock(block));
      BroadcastWeighs(s.wire, p.table, except, NewBlock(block));
    case Spread(tx) =>
      ClearWeighs(s, NewTx(tx));
      BroadcastWeighs(s.wire, p.table, None, NewTx(tx));
    case SyncPool(fd) => PoolPostsWeigh(s, fd, p.pool);
    case AskLast =>
      if p.table != [] {
        ClearWeighs(s, RequestChain);
        SumOfOne((p.table[|p.table| - 1], RequestChain), PostWeight(s.wire));
      }
  }

  // The measure decreases

  lemma WeightOfNext(sha: Hasher, s: Net, a: Action)
    requires Enabled(sha, s, a)
    ensures Measure(Next(sha, s, a))
            <= Measure(s) - PeerWeight(s.peers[Actor(s, a)]) + PeerWeight(After(sha, s, a))
               - Sum(s.channels, ChannelWeight) + Sum(Links(s, a), ChannelWeight)
               + Sum(Posts(sha, s, a), PostWeight(s.wire))
  {
    hide After, Posts, Links, PeerWeight, ChannelWeight;
    SumUpdates(s.peers, Actor(s, a), After(sha, s, a), PeerWeight);
    SendAllWeighs(s.wire, Links(s, a), Posts(sha, s, a));
  }

  lemma WorkDecreases(sha: Hasher, s: Net, a: Action)
    requires Shaped(s) && ClearState(s) && Enabled(sha, s, a) && a.Work?
    ensures Measure(Next(sha, s, a)) < Measure(s)
  {
    hide Next, Measure, JobWeight, JobPosts, ClearTxs, ClearChain, ClearJob;
    var p := s.peers[a.u];
    assert PeerShaped(s, a.u) && ClearPeer(p);
    assert p.jobs[a.j] in p.jobs;
    WeightOfNext(sha, s, a);
    SumSplits(p.jobs, a.j, JobWeight);
    JobPostsWeigh(s, p, p.jobs[a.j]);
  }

  lemma TakenMessage(channels: seq<Channel>, c: nat)
    requires c < |channels| && channels[c].queue != []
    ensures Sum(channels[c := channels[c].(queue := channels[c].queue[1..])], ChannelWeight)
         == Sum(channels, ChannelWeight) - LineWeight(channels[c].queue[0])
  {
    var ch := channels[c];
    SumUpdates(channels, c, ch.(queue := ch.queue[1..]), ChannelWeight);
    SumSplits(ch.queue, 0, LineWeight);
    assert ch.queue[..0] + ch.queue[1..] == ch.queue[1..];
  }

  /** What handling a line costs: one broadcast for a longer chain, or an answer
      to a question. */
  lemma EffectWeighs(sha: Hasher, chain: Held, pool: seq<Tx>, l: Heard)
    requires |chain| <= MAX_BLOCKS && LineShaped(l)
    ensures var o := Effect(sha, chain, pool, l);
            (MAX_PEERS + 1) * Room(o.chain) + (if o.relay.Some? then MAX_PEERS + 1 else 0)
              + (if o.answer.Some? then MsgBound(o.answer.value) else 0)
            < (MAX_PEERS + 1) * Room(chain) + LineWeight(l)
    ensures var answer := Effect(sha, chain, pool, l).answer;
            answer.Some? && answer.value.ChainResponse? ==> answer.value.chain == chain
  {
    hide ChainValid, LinkValid;
  }

  lemma DeliveryWeighs(sha: Hasher, s: Net, a: Action)
    requires Shaped(s) && ClearState(s) && Enabled(sha, s, a) && a.Deliver?
    ensures PeerWeight(After(sha, s, a)) + Sum(Posts(sha, s, a), PostWeight(s.wire))
            < PeerWeight(s.peers[Actor(s, a)]) + LineWeight(s.channels[a.c].queue[0])
  {
    hide Effect, Room, LineWeight, MsgBound, ClearMsg, ClearLine;
    var u := Actor(s, a);
    var p, o, l, fd := s.peers[u], Delivery(sha, s, a.c), s.channels[a.c].queue[0], Reverse(a.c);
    assert PeerShaped(s, u) && LinkShaped(s, a.c);
    assert l in s.channels[a.c].queue && LineShaped(l);
    EffectWeighs(sha, p.chain, p.pool, l);
    if o.relay.Some? {
      SumConcat(p.jobs, [Relay(o.relay.value, Some(fd))], JobWeight);
      SumOfOne(Relay(o.relay.value, Some(fd)), JobWeight);
    } else {
      assert p.jobs + [] == p.jobs;
    }
    if o.answer.Some? {
      ClearPosts(sha, s, a, (fd, o.answer.value));
      ClearWeighs(s, o.answer.value);
      SumOfOne((fd, o.answer.value), PostWeight(s.wire));
    }
  }

  lemma DeliverDecreases(sha: Hasher, s: Net, a: Action)
    requires Shaped(s) && ClearState(s) && Enabled(sha, s, a) && a.Deliver?
    ensures Measure(Next(sha, s, a)) < Measure(s)
  {
    hide Next, Measure, After, Posts, PeerWeight, ChannelWeight, LineWeight;
    WeightOfNext(sha, s, a);
    TakenMessage(s.channels, a.c);
    DeliveryWeighs(sha, s, a);
  }

  predicate IsTraffic(a: Action) { a.Deliver? || a.Work? }

  predicate AllTraffic(run: seq<Action>) { forall a | a in run :: IsTraffic(a) }

  /**
   Every run of traffic is finite, and no longer than the measure of the state
   it starts in; each step takes at least one off.
   */
  lemma {:induction false} TrafficEnds(sha: Hasher, s: Net, run: seq<Action>)
    requires Shaped(s) && ClearState(s) && IsRun(sha, s, run) && AllTraffic(run)
    ensures |run| + Measure(Final(sha, s, run)) <= Measure(s)
    decreases |run|
  {
    hide Next, Measure, Shaped, ClearState, Enabled;
    if run != [] {
      assert run[0] in run && forall a | a in run[1..] :: a in run;
      if run[0].Work? { WorkDecreases(sha, s, run[0]); } else { DeliverDecreases(sha, s, run[0]); }
      ShapeKept(sha, s, run[0]);
      ShapedWire(s);
      ClearKept(sha, s, run[0]);
      TrafficEnds(sha, Next(sha, s, run[0]), run[1..]);
    }
  }

  /** Nothing can be delivered and nothing is pending. */
  ghost predicate Silent(sha: Hasher, s: Net) {
    forall a | IsTraffic(a) :: !Enabled(sha, s, a)
  }

  /** So from every state traffic leads to silence. */
  lemma {:induction false} SilenceIsReached(sha: Hasher, s: Net) returns (run: seq<Action>)
    requires Shaped(s) && ClearState(s)
    ensures IsRun(sha, s, run) && AllTraffic(run) && Silent(sha, Final(sha, s, run))
    decreases Measure(s)
  {
    hide Next, Measure, Shaped, ClearState, Enabled;
    if a :| IsTraffic(a) && Enabled(sha, s, a) {
      if a.Work? { WorkDecreases(sha, s, a); } else { DeliverDecreases(sha, s, a); }
      ShapeKept(sha, s, a);
      ShapedWire(s);
      ClearKept(sha, s, a);
      var rest := SilenceIsReached(sha, Next(sha, s, a));
      run := [a] + rest;
      assert run[1..] == rest;
    } else {
      run := [];
    }
  }
}
