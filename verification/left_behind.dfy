/**
 Where agreement stops: from a fresh start, honest nodes and a working network
 lead to silence in which one node knows nothing of a block that its neighbour
 holds.
 */
module LeftBehind {
  import opened Machine
  import opened Records
  import opened Blocks
  import opened Chains
  import opened Mining
  import opened Protocol
  import opened Wire
  import opened LongLines
  import opened Handlers
  import opened Network
  import opened Honest
  import opened ClearNet
  import opened Quiescence
  import opened Tidy
  import opened Flood
  import opened Agreement

  /** Traffic changes no table, no errand, no address and no history. */
  predicate SameFrame(s: Net, t: Net) {
    && SameLinks(s, t) && s.mined == t.mined
    && forall u | 0 <= u < |s.peers| ::
         && s.peers[u].table == t.peers[u].table && s.peers[u].errand == t.peers[u].errand
         && s.peers[u].addr == t.peers[u].addr
  }

  lemma TrafficFrame(sha: Hasher, s: Net, a: Action)
    requires Enabled(sha, s, a) && IsTraffic(a)
    ensures SameFrame(s, Next(sha, s, a))
  {
    hide Posts, Effect;
    var t := Next(sha, s, a);
    forall c: nat | c < |s.channels|
      ensures t.channels[c].src == s.channels[c].src && t.channels[c].dst == s.channels[c].dst
    {
      SendAllFrame(s.wire, Links(s, a), Posts(sha, s, a), c);
    }
  }

  lemma {:induction false} TrafficRunFrame(sha: Hasher, s: Net, run: seq<Action>)
    requires IsRun(sha, s, run) && AllTraffic(run)
    ensures SameFrame(s, Final(sha, s, run)) && AllTidy(sha, run)
    decreases |run|
  {
    hide Next, Enabled;
    if run != [] {
      assert run[0] in run && forall a | a in run[1..] :: a in run;
      TrafficFrame(sha, s, run[0]);
      TrafficRunFrame(sha, Next(sha, s, run[0]), run[1..]);
    }
  }

  // While all hold one chain

  predicate IsQuestion(job: Job) { job.SyncPool? || job.AskLast? }

  /** All hold `c`, and nothing but requests for it and `c` itself is on its way. */
  ghost predicate Idling(s: Net, c: Held) {
    && Intact(s, RequestChain) && Intact(s, ChainResponse(c))
    && (forall u: nat | u < |s.peers| ::
          && s.peers[u].chain == c && s.peers[u].pool == [] && s.peers[u].errand.Idle?
          && forall job | job in s.peers[u].jobs :: IsQuestion(job))
    && (forall k: nat | k < |s.channels| :: forall l | l in s.channels[k].queue ::
          l == Ok(RequestChain) || l == Ok(ChainResponse(c)))
  }

  predicate IsLinking(a: Action) { IsTraffic(a) || a.Dial? || a.AcceptDial? }

  lemma IdlingActor(sha: Hasher, s: Net, c: Held, a: Action)
    requires Idling(s, c) && Enabled(sha, s, a) && IsLinking(a)
    ensures var q := After(sha, s, a);
            q.chain == c && q.pool == [] && q.errand.Idle? && forall job | job in q.jobs :: IsQuestion(job)
    ensures forall post | post in Posts(sha, s, a) :: post.1 == RequestChain || post.1 == ChainResponse(c)
  {
    hide ChainValid;
    if a.Deliver? {
      assert s.channels[a.c].queue[0] in s.channels[a.c].queue;
    } else if a.Work? {
      var job := s.peers[a.u].jobs[a.j];
      assert job in s.peers[a.u].jobs;
    }
  }

  lemma StaysIdling(sha: Hasher, s: Net, c: Held, a: Action)
    requires Idling(s, c) && Enabled(sha, s, a) && IsLinking(a)
    ensures Idling(Next(sha, s, a), c)
  {
    hide Next, After, Posts;
    var t := Next(sha, s, a);
    PeersStay(sha, s, a);
    IdlingActor(sha, s, c, a);
    forall k: nat, l | k < |t.channels| && l in t.channels[k].queue
      ensures l == Ok(RequestChain) || l == Ok(ChainResponse(c))
    {
      MessagesComeFrom(sha, s, a, k);
      if m :| (k, m) in Posts(sha, s, a) && l in s.wire(m) {
        assert (k, m).1 == RequestChain || (k, m).1 == ChainResponse(c);
      }
    }
  }

  lemma {:induction false} IdlingRuns(sha: Hasher, s: Net, c: Held, run: seq<Action>)
    requires Idling(s, c) && IsRun(sha, s, run) && AllTraffic(run)
    ensures Idling(Final(sha, s, run), c)
    decreases |run|
  {
    hide Next, Enabled, Idling;
    if run != [] {
      assert run[0] in run && forall a | a in run[1..] :: a in run;
      StaysIdling(sha, s, c, run[0]);
      IdlingRuns(sha, Next(sha, s, run[0]), c, run[1..]);
    }
  }

  /** In silence nothing that can be read is left, and no question. */
  lemma SilentIsDrained(sha: Hasher, s: Net)
    requires Shaped(s) && AllAccepted(s) && Silent(sha, s)
    requires forall u: nat | u < |s.peers| :: s.peers[u].errand.Idle?
    requires forall k: nat | k < |s.channels| :: forall l | l in s.channels[k].queue :: !l.OutsideModel?
    ensures Drained(s) && forall u: nat | u < |s.peers| :: s.peers[u].jobs == []
  {
    forall k: nat | k < |s.channels| ensures s.channels[k].queue == [] {
      assert LinkShaped(s, k);
      if s.channels[k].queue != [] { assert s.channels[k].queue[0] in s.channels[k].queue; }
      assert !Enabled(sha, s, Deliver(k)) by { assert IsTraffic(Deliver(k)); }
    }
    forall u: nat | u < |s.peers| ensures s.peers[u].jobs == [] {
      assert !Enabled(sha, s, Work(u, 0)) by { assert IsTraffic(Work(u, 0)); }
    }
  }

  lemma IdlingIsKnown(s: Net, c: Held)
    requires Idling(s, c)
    ensures forall k: nat | k < |s.channels| :: forall l | l in s.channels[k].queue :: !l.OutsideModel?
    ensures forall u: nat | u < |s.peers| :: s.peers[u].errand.Idle?
  {
  }

  // The run

  /** Nodes 1 and 2 are connected, and nobody else is. */
  predicate Linked(s: Net) {
    && |s.peers| >= 3 && |s.channels| == 2
    && s.channels[0].src == 1 && s.channels[0].dst == 2 && s.channels[1].src == 2 && s.channels[1].dst == 1
    && s.peers[0].table == [] && s.peers[1].table == [0] && s.peers[2].table == [1]
  }

  lemma FreshIsIdling(sha: Hasher, g: Block, s: Net)
    requires Start(sha, g, s)
    ensures Idling(s, [g])
  {
    hide Reading, SendableBlock, MinedFrom;
    GenesisIsTidy(sha, g);
    assert TidyBlock(sha, [g][0]);
    ShortArrives(ChainResponse([g]));
    ShortArrives(RequestChain);
    WireReads(s, ChainResponse([g]));
    WireReads(s, RequestChain);
    assert forall u: nat | u < |s.peers| :: s.peers[u] in s.peers;
  }

  /** What dialling changes. */
  lemma AfterDial(sha: Hasher, s: Net, u: nat, v: nat)
    requires Enabled(sha, s, Dial(u, v)) && HasRoom(s.peers[u])
    requires Intact(s, RequestChain)
    ensures var t, p, k := Next(sha, s, Dial(u, v)), s.peers[u], |s.channels|;
            && t.peers == s.peers[u := p.(table := p.table + [k], jobs := p.jobs + [SyncPool(k), AskLast])]
            && t.channels == s.channels + [Channel(u, v, [Ok(RequestChain)]), Channel(v, u, [])]
            && t.mined == s.mined && t.wire == s.wire
  {
    SendsOne(s.wire, Links(s, Dial(u, v)), (|s.channels|, RequestChain));
    var none: seq<Heard> := [];
    assert none + [Ok(RequestChain)] == [Ok(RequestChain)];
    assert s.mined + {} == s.mined;
  }

  /** And what accepting does. */
  lemma AfterAccept(sha: Hasher, s: Net, c: nat)
    requires Enabled(sha, s, AcceptDial(c)) && Intact(s, RequestChain)
    ensures var t, v, ch := Next(sha, s, AcceptDial(c)), s.channels[c].src, s.channels[c];
            var p := s.peers[v];
            && t.peers == s.peers[v := p.(table := p.table + [c], jobs := p.jobs + [SyncPool(c)])]
            && t.channels == s.channels[c := ch.(queue := ch.queue + [Ok(RequestChain)])]
            && t.mined == s.mined && t.wire == s.wire
  {
    SendsOne(s.wire, s.channels, (c, RequestChain));
    assert s.mined + {} == s.mined;
  }

  lemma FirstLink(sha: Hasher, g: Block, s: Net)
    requires Start(sha, g, s) && |s.peers| >= 3
    ensures Enabled(sha, s, Dial(1, 2))
    ensures Enabled(sha, Next(sha, s, Dial(1, 2)), AcceptDial(1))
    ensures var t := Next(sha, Next(sha, s, Dial(1, 2)), AcceptDial(1));
            && Linked(t) && AllAccepted(t) && |t.peers| == |s.peers| && t.peers[0].addr == s.peers[0].addr
  {
    hide MinedFrom, Next;
    assert forall u: nat | u < |s.peers| :: s.peers[u] in s.peers;
    ShortArrives(RequestChain);
    WireReads(s, RequestChain);
    AfterDial(sha, s, 1, 2);
    AfterAccept(sha, Next(sha, s, Dial(1, 2)), 1);
  }

  lemma LowIsSafe(sha: Hasher, g: Block, time: I64, addr: Text64, block: Block)
    requires MinedFrom(sha, Template(sha, g, time, [], addr), block) && g.index == 0
    ensures CutSafely(sha, block)
  {
    assert block.index == 1;
  }

  /** Node 0 mines, on its own. */
  lemma MinesAlone(sha: Hasher, g: Block, s: Net, time: I64, block: Block) returns (run: seq<Action>)
    requires Idling(s, [g]) && |s.peers| > 0 && s.peers[0].table == [] && s.peers[0].jobs == []
    requires MinedFrom(sha, Template(sha, g, time, [], s.peers[0].addr), block) && g.index == 0
    ensures IsRun(sha, s, run) && AllTidy(sha, run)
    ensures Final(sha, s, run) == s.(peers := s.peers[0 := s.peers[0].(chain := [g, block])],
                                     mined := s.mined + {[g, block]})
  {
    hide MinedFrom, Accepts, Intact;
    var p := s.peers[0];
    run := [Snapshot(0, time), Collect(0), Finish(0, block), Work(0, 0)];
    TemplateFits(sha, [g], time, [], p.addr, block);
    LowIsSafe(sha, g, time, p.addr, block);
    var s1 := Next(sha, s, Snapshot(0, time));
    assert s.mined + {} == s.mined;
    assert s1 == s.(peers := s.peers[0 := p.(errand := Collecting([g], time, [], []))]);
    var s2 := Next(sha, s1, Collect(0));
    assert s2 == s.(peers := s.peers[0 := p.(errand := Ready([g], time, [], [], []))]);
    AfterMining(sha, s2, Finish(0, block));
    var s3 := Next(sha, s2, Finish(0, block));
    assert [g] + [block] == [g, block] && p.jobs + [Relay(block, None)] == [Relay(block, None)];
    assert s3.peers[0] == p.(chain := [g, block], jobs := [Relay(block, None)]);
    var s4 := Next(sha, s3, Work(0, 0));
    assert s4.peers[0] == p.(chain := [g, block]);
    FourSteps(sha, s, run);
  }

  lemma FourSteps(sha: Hasher, s: Net, run: seq<Action>)
    requires |run| == 4 && Enabled(sha, s, run[0])
    requires Enabled(sha, Next(sha, s, run[0]), run[1])
    requires Enabled(sha, Next(sha, Next(sha, s, run[0]), run[1]), run[2])
    requires Enabled(sha, Next(sha, Next(sha, Next(sha, s, run[0]), run[1]), run[2]), run[3])
    ensures IsRun(sha, s, run)
    ensures Final(sha, s, run) == Next(sha, Next(sha, Next(sha, Next(sha, s, run[0]), run[1]), run[2]), run[3])
  {
    hide Next, Enabled;
    var s1 := Next(sha, s, run[0]);
    var s2 := Next(sha, s1, run[1]);
    var s3 := Next(sha, s2, run[2]);
    OneStep(sha, s, run[0]);
    OneStep(sha, s1, run[1]);
    OneStep(sha, s2, run[2]);
    OneStep(sha, s3, run[3]);
    RunsJoin(sha, s, [run[0]], [run[1]]);
    RunsJoin(sha, s, [run[0]] + [run[1]], [run[2]]);
    RunsJoin(sha, s, [run[0]] + [run[1]] + [run[2]], [run[3]]);
    assert run == [run[0]] + [run[1]] + [run[2]] + [run[3]];
  }

  // Node 0 meets node 1

  /** Node 0 holds `d` and has dialled node 1, who holds `c` or has adopted `d`;
      all others hold `c`, and nothing is on its way but between the two. */
  ghost predicate Meeting(s: Net, c: Held, d: Held) {
    && |s.peers| >= 3 && |s.channels| == 4 && |c| < |d|
    && Intact(s, RequestChain) && Intact(s, ChainResponse(c)) && Intact(s, ChainResponse(d))
    && s.channels[2].src == 0 && s.channels[2].dst == 1 && s.channels[3].src == 1 && s.channels[3].dst == 0
    && s.channels[0].queue == [] && s.channels[1].queue == []
    && s.peers[0].chain == d && s.peers[0].table == [2]
    && (s.peers[1].chain == c || s.peers[1].chain == d)
    && (forall u: nat | 2 <= u < |s.peers| :: s.peers[u].chain == c)
    && (forall u: nat | u < |s.peers| :: MeetingPeer(s.peers[u], u))
    && (forall k: nat | k < 4 :: forall l | l in s.channels[k].queue :: l.Ok? && MeetingMsg(c, d, l.value))
  }

  predicate MeetingPeer(p: Peer, u: nat) {
    && p.pool == [] && p.errand.Idle?
    && forall job | job in p.jobs :: job.SyncPool? || (job.AskLast? && u == 0)
  }

  predicate MeetingMsg(c: Held, d: Held, m: Msg) {
    m == RequestChain || m == ChainResponse(c) || m == ChainResponse(d)
  }

  lemma MeetingActor(sha: Hasher, s: Net, c: Held, d: Held, a: Action)
    requires Meeting(s, c, d) && Enabled(sha, s, a) && IsTraffic(a)
    ensures var u, p, q := Actor(s, a), s.peers[Actor(s, a)], After(sha, s, a);
            && MeetingPeer(q, u) && q.table == p.table
            && (if u == 1 then q.chain == c || q.chain == d else q.chain == p.chain)
    ensures forall post | post in Posts(sha, s, a) :: (post.0 == 2 || post.0 == 3) && MeetingMsg(c, d, post.1)
  {
    hide ChainValid;
    assert MeetingPeer(s.peers[Actor(s, a)], Actor(s, a));
    if a.Deliver? {
      var l := s.channels[a.c].queue[0];
      assert l in s.channels[a.c].queue && MeetingMsg(c, d, l.value);
    } else {
      var job := s.peers[a.u].jobs[a.j];
      assert job in s.peers[a.u].jobs;
    }
  }

  lemma StaysMeeting(sha: Hasher, s: Net, c: Held, d: Held, a: Action)
    requires Meeting(s, c, d) && Enabled(sha, s, a) && IsTraffic(a)
    ensures Meeting(Next(sha, s, a), c, d)
  {
    hide Next, After, Posts, MeetingPeer, MeetingMsg;
    var t := Next(sha, s, a);
    PeersStay(sha, s, a);
    TrafficFrame(sha, s, a);
    MeetingActor(sha, s, c, d, a);
    forall k: nat, l | k < 4 && l in t.channels[k].queue ensures k >= 2 && l.Ok? && MeetingMsg(c, d, l.value) {
      MessagesComeFrom(sha, s, a, k);
      if m :| (k, m) in Posts(sha, s, a) && l in s.wire(m) {
        assert ((k, m).0 == 2 || (k, m).0 == 3) && MeetingMsg(c, d, (k, m).1);
        assert Intact(s, m) by { MeetingIsIntact(s, c, d, m); }
      }
    }
    forall k: nat | k < 2 ensures |t.channels[k].queue| == 0 { NothingNewOn(sha, s, c, d, a, k); }
  }

  lemma NothingNewOn(sha: Hasher, s: Net, c: Held, d: Held, a: Action, k: nat)
    requires Meeting(s, c, d) && Enabled(sha, s, a) && IsTraffic(a) && k < 2
    ensures k < |Next(sha, s, a).channels| && |Next(sha, s, a).channels[k].queue| == 0
  {
    hide Posts, After, Intact, MeetingPeer, MeetingMsg;
    MeetingActor(sha, s, c, d, a);
    NoPostsNoChange(s.wire, Links(s, a), Posts(sha, s, a), k);
    assert Links(s, a)[k].queue == [];
  }

  lemma {:induction false} NoPostsNoChange(wire: Msg -> seq<Heard>, channels: seq<Channel>, posts: seq<Post>, k: nat)
    requires k < |channels| && forall post | post in posts :: post.0 != k
    ensures SendAll(wire, channels, posts)[k] == channels[k]
  {
    if posts != [] {
      var n := |posts| - 1;
      assert posts[n] in posts && forall post | post in posts[..n] :: post in posts;
      NoPostsNoChange(wire, channels, posts[..n], k);
    }
  }

  lemma {:induction false} MeetingRuns(sha: Hasher, s: Net, c: Held, d: Held, run: seq<Action>)
    requires Meeting(s, c, d) && IsRun(sha, s, run) && AllTraffic(run)
    ensures Meeting(Final(sha, s, run), c, d)
    decreases |run|
  {
    hide Next, Enabled, Meeting;
    if run != [] {
      assert run[0] in run && forall a | a in run[1..] :: a in run;
      StaysMeeting(sha, s, c, d, run[0]);
      MeetingRuns(sha, Next(sha, s, run[0]), c, d, run[1..]);
    }
  }

  lemma MeetingIsIntact(s: Net, c: Held, d: Held, m: Msg)
    requires Meeting(s, c, d) && MeetingMsg(c, d, m)
    ensures Intact(s, m)
  {
  }

  lemma MeetingIsKnown(s: Net, c: Held, d: Held)
    requires Meeting(s, c, d)
    ensures forall k: nat | k < |s.channels| :: forall l | l in s.channels[k].queue :: !l.OutsideModel?
    ensures forall u: nat | u < |s.peers| :: s.peers[u].errand.Idle?
  {
    assert forall u: nat | u < |s.peers| :: MeetingPeer(s.peers[u], u);
  }

  /** Node 0 dials node 1 after it has mined `d`. */
  lemma SecondLink(sha: Hasher, s: Net, c: Held, d: Held)
    requires Linked(s) && Drained(s) && AllAccepted(s) && |c| < |d|
    requires Intact(s, RequestChain) && Intact(s, ChainResponse(c)) && Intact(s, ChainResponse(d))
    requires forall u: nat | u < |s.peers| :: s.peers[u].jobs == [] && s.peers[u].pool == [] && s.peers[u].errand.Idle?
    requires s.peers[0].chain == d && forall u: nat | 1 <= u < |s.peers| :: s.peers[u].chain == c
    ensures Enabled(sha, s, Dial(0, 1))
    ensures Enabled(sha, Next(sha, s, Dial(0, 1)), AcceptDial(3))
    ensures var t := Next(sha, Next(sha, s, Dial(0, 1)), AcceptDial(3));
            && Meeting(t, c, d) && AllAccepted(t) && |t.peers| == |s.peers|
            && Ok(RequestChain) in t.channels[3].queue && t.channels[0] == s.channels[0]
  {
    hide Next;
    AfterDial(sha, s, 0, 1);
    var m := Next(sha, s, Dial(0, 1));
    assert m.channels[3] == Channel(1, 0, []) && m.channels[2] == Channel(0, 1, [Ok(RequestChain)]);
    AfterAccept(sha, m, 3);
    var t := Next(sha, m, AcceptDial(3));
    assert t.channels[3].queue == [Ok(RequestChain)];
    forall k: nat | k < |t.channels|
      ensures t.channels[k].src < |t.peers| && k in t.peers[t.channels[k].src].table
    {
      if k < 2 { assert k in s.peers[s.channels[k].src].table; }
    }
  }

  /** What tidy users do is clear. */
  lemma CleanIsClear(sha: Hasher, s: Net, run: seq<Action>)
    requires AllTidy(sha, run) && forall p | p in s.peers :: CleanText(p.addr)
    ensures AllClear(run) && forall p | p in s.peers :: OneLine(p.addr)
  {
    hide CutSafely;
    forall a | a in run ensures ClearAction(a) { assert TidyAction(sha, a); }
  }

  /** Everything that holds of a state reached by a run from the start. */
  lemma ReachedState(sha: Hasher, g: Block, s: Net, run: seq<Action>)
    requires Start(sha, g, s) && IsRun(sha, s, run) && AllTidy(sha, run) && forall p | p in s.peers :: CleanText(p.addr)
    ensures var t := Final(sha, s, run); Shaped(t) && NetHonest(sha, g, t) && TidyNet(sha, t) && ClearState(t)
  {
    hide Shaped, NetHonest, TidyNet, Start, IsRun, Final, CleanText, TidyAction;
    StartIsHonest(sha, g, s);
    StartIsTidy(sha, g, s);
    CleanIsClear(sha, s, run);
    StartIsClear(sha, g, s);
    EveryStateIsClear(sha, s, run);
    EveryStateIsTidy(sha, s, run);
    EveryStateIsHonest(sha, g, s, run);
  }

  /** Nodes 1 and 2 meet, and the network falls silent. */
  lemma FirstSilence(sha: Hasher, g: Block, s: Net) returns (run: seq<Action>)
    requires Start(sha, g, s) && |s.peers| >= 3 && forall p | p in s.peers :: CleanText(p.addr)
    ensures IsRun(sha, s, run) && AllTidy(sha, run)
    ensures var t := Final(sha, s, run);
            && Linked(t) && AllAccepted(t) && Idling(t, [g]) && Drained(t)
            && |t.peers| == |s.peers| && t.peers[0].addr == s.peers[0].addr
            && (forall u: nat | u < |t.peers| :: t.peers[u].jobs == [])
  {
    hide Next, Enabled, Idling, Start, Shaped, NetHonest, TidyNet, Silent, CleanText;
    var first := [Dial(1, 2)] + [AcceptDial(1)];
    FirstLink(sha, g, s);
    FreshIsIdling(sha, g, s);
    var s1 := Next(sha, s, Dial(1, 2));
    StaysIdling(sha, s, [g], Dial(1, 2));
    StaysIdling(sha, s1, [g], AcceptDial(1));
    OneStep(sha, s, Dial(1, 2));
    OneStep(sha, s1, AcceptDial(1));
    RunsJoin(sha, s, [Dial(1, 2)], [AcceptDial(1)]);
    ReachedState(sha, g, s, first);
    var s2 := Final(sha, s, first);
    var rest := SilenceIsReached(sha, s2);
    var t := Final(sha, s2, rest);
    RunsJoin(sha, s, first, rest);
    run := first + rest;
    TrafficRunFrame(sha, s2, rest);
    IdlingRuns(sha, s2, [g], rest);
    ReachedState(sha, g, s, run);
    IdlingIsKnown(t, [g]);
    SilentIsDrained(sha, t);
  }

  /** What mining alone leaves as it was. */
  lemma MinedAlone(sha: Hasher, g: Block, s: Net, t: Net, block: Block)
    requires Linked(s) && AllAccepted(s) && Idling(s, [g]) && Drained(s)
    requires t == s.(peers := s.peers[0 := s.peers[0].(chain := [g, block])], mined := s.mined + {[g, block]})
    requires forall u: nat | u < |s.peers| :: s.peers[u].jobs == []
    ensures Linked(t) && Drained(t) && AllAccepted(t) && Intact(t, RequestChain) && Intact(t, ChainResponse([g]))
    ensures forall u: nat | u < |t.peers| :: t.peers[u].jobs == [] && t.peers[u].pool == [] && t.peers[u].errand.Idle?
    ensures t.peers[0].chain == [g, block] && forall u: nat | 1 <= u < |t.peers| :: t.peers[u].chain == [g]
  {
  }

  lemma StartsAtZero(sha: Hasher, g: Block, s: Net)
    requires Start(sha, g, s)
    ensures g.index == 0
  {
  }

  lemma ShortChainArrives(sha: Hasher, s: Net, u: nat)
    requires Shaped(s) && TidyNet(sha, s) && u < |s.peers| && |s.peers[u].chain| <= 171
    ensures Intact(s, ChainResponse(s.peers[u].chain))
  {
    hide SendableBlock, TidyTx, Reading;
    assert TidyPeer(sha, s.peers[u]);
    ShortArrives(ChainResponse(s.peers[u].chain));
    ShapedReads(s, ChainResponse(s.peers[u].chain));
  }

  /**
   Agreement stops here: from any fresh start of three nodes or more there is a
   run of tidy users that ends in silence, with nodes 0 and 1 holding a block
   of which node 2 knows nothing, although it is connected to node 1.
   */
  lemma SomebodyStaysBehind(sha: Hasher, g: Block, s: Net, time: I64, block: Block) returns (run: seq<Action>)
    requires Start(sha, g, s) && |s.peers| >= 3 && forall p | p in s.peers :: CleanText(p.addr)
    requires MinedFrom(sha, Template(sha, g, time, [], s.peers[0].addr), block)
    ensures IsRun(sha, s, run) && AllTidy(sha, run)
    ensures var t := Final(sha, s, run);
            && Silent(sha, t) && AllAccepted(t) && |t.peers| == |s.peers| && |t.channels| == 4
            && t.channels[0].src == 1 && t.channels[0].dst == 2
            && t.peers[0].chain == t.peers[1].chain == [g, block] && t.peers[2].chain == [g]
  {
    hide Next, Enabled, Idling, Start, Shaped, NetHonest, TidyNet, Silent, CleanText, MinedFrom, Intact,
         IsRun, Final, Meeting, TidyAction;
    var r1 := FirstSilence(sha, g, s);
    var s1 := Final(sha, s, r1);
    StartsAtZero(sha, g, s);
    var r2 := MinesAlone(sha, g, s1, time, block);
    var s2 := Final(sha, s1, r2);
    RunsJoin(sha, s, r1, r2);
    ReachedState(sha, g, s, r1 + r2);
    MinedAlone(sha, g, s1, s2, block);
    ShortChainArrives(sha, s2, 0);
    var r3 := MeetAndSync(sha, g, s, r1 + r2, s2, block);
    RunsJoin(sha, s, r1 + r2, r3);
    run := r1 + r2 + r3;
  }

  lemma MeetAndSync(sha: Hasher, g: Block, s: Net, before: seq<Action>, s2: Net, block: Block)
    returns (run: seq<Action>)
    requires Start(sha, g, s) && IsRun(sha, s, before) && AllTidy(sha, before) && s2 == Final(sha, s, before)
    requires forall p | p in s.peers :: CleanText(p.addr)
    requires Linked(s2) && Drained(s2) && AllAccepted(s2)
    requires Intact(s2, RequestChain) && Intact(s2, ChainResponse([g])) && Intact(s2, ChainResponse([g, block]))
    requires forall u: nat | u < |s2.peers| ::
               s2.peers[u].jobs == [] && s2.peers[u].pool == [] && s2.peers[u].errand.Idle?
    requires s2.peers[0].chain == [g, block] && forall u: nat | 1 <= u < |s2.peers| :: s2.peers[u].chain == [g]
    ensures IsRun(sha, s2, run) && AllTidy(sha, run)
    ensures var t := Final(sha, s2, run);
            && Silent(sha, t) && AllAccepted(t) && |t.peers| == |s2.peers| && |t.channels| == 4
            && t.channels[0].src == 1 && t.channels[0].dst == 2
            && t.peers[0].chain == t.peers[1].chain == [g, block] && t.peers[2].chain == [g]
  {
    hide Next, Enabled, Start, Shaped, NetHonest, TidyNet, Silent, CleanText, Intact, IsRun, Final, TidyAction;
    var c: Held, d: Held := [g], [g, block];
    var link := [Dial(0, 1)] + [AcceptDial(3)];
    SecondLink(sha, s2, c, d);
    var m := Next(sha, s2, Dial(0, 1));
    OneStep(sha, s2, Dial(0, 1));
    OneStep(sha, m, AcceptDial(3));
    RunsJoin(sha, s2, [Dial(0, 1)], [AcceptDial(3)]);
    var s3 := Final(sha, s2, link);
    TidyLink(sha, link);
    RunsJoin(sha, s, before, link);
    ReachedState(sha, g, s, before + link);
    var rest := SilenceIsReached(sha, s3);
    var t := Final(sha, s3, rest);
    RunsJoin(sha, s2, link, rest);
    run := link + rest;
    TrafficRunFrame(sha, s3, rest);
    MeetingRuns(sha, s3, c, d, rest);
    MeetingEnds(sha, g, s3, c, d, rest);
  }

  lemma TidyLink(sha: Hasher, link: seq<Action>)
    requires link == [Dial(0, 1)] + [AcceptDial(3)]
    ensures AllTidy(sha, link)
  {
  }

  /** Neither chain is too long for an answer. */
  lemma {:induction false} AnswersAreShort(sha: Hasher, s: Net, c: Held, d: Held, run: seq<Action>)
    requires Meeting(s, c, d) && FitsBuffer(c) && FitsBuffer(d) && IsRun(sha, s, run) && AllTraffic(run)
    ensures AnswersFit(sha, s, run, 3)
    decreases |run|
  {
    hide Next, Enabled, MeetingPeer, MeetingMsg, Intact, FitsBuffer;
    if run != [] {
      assert run[0] in run && forall a | a in run[1..] :: a in run;
      StaysMeeting(sha, s, c, d, run[0]);
      AnswersAreShort(sha, Next(sha, s, run[0]), c, d, run[1..]);
    }
  }

  lemma ShortFits(chain: Held)
    requires |chain| <= 171
    ensures FitsBuffer(chain)
  {
    hide Encode;
    ShortEnough(ChainResponse(chain));
  }

  /** In silence node 1 has adopted, since it asked. */
  lemma MeetingEnds(sha: Hasher, g: Block, s: Net, c: Held, d: Held, run: seq<Action>)
    requires Shaped(s) && NetHonest(sha, g, s) && TidyNet(sha, s) && Meeting(s, c, d) && AllAccepted(s)
    requires |d| <= 171
    requires Ok(RequestChain) in s.channels[3].queue && IsRun(sha, s, run) && AllTraffic(run)
    requires Silent(sha, Final(sha, s, run))
    ensures var t := Final(sha, s, run);
            Meeting(t, c, d) && AllAccepted(t) && t.peers[1].chain == d && |t.peers| == |s.peers|
  {
    hide Next, Enabled, Shaped, NetHonest, TidyNet, Silent, Intact, IsRun, Final, MeetingPeer, MeetingMsg;
    var t := Final(sha, s, run);
    TrafficRunFrame(sha, s, run);
    MeetingRuns(sha, s, c, d, run);
    EveryStateIsTidy(sha, s, run);
    ShortFits(c);
    ShortFits(d);
    MeetingIsKnown(t, c, d);
    AnswersAreShort(sha, s, c, d, run);
    SilentIsDrained(sha, t);
    AskingSynchronizes(sha, g, s, run, 3);
  }
}
