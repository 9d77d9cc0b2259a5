/**
 Agreement by asking: who gets which chain from requests and responses, and a
 run that ends in silence with a node left behind.
 */
module Agreement {
  import opened Machine
  import opened Records
  import opened Blocks
  import opened Chains
  import opened Protocol
  import opened Wire
  import opened LongLines
  import opened Handlers
  import opened Network
  import opened Honest
  import opened Quiescence
  import opened Tidy
  import opened Flood

  // Who adopts

  /** The chains that are read from a queue. */
  function ChainsRead(queue: seq<Heard>): seq<seq<Block>> {
    if queue == [] then [] else ChainOf(queue[0]) + ChainsRead(queue[1..])
  }

  function ChainOf(l: Heard): seq<seq<Block>> { if l.Ok? && l.value.ChainResponse? then [l.value.chain] else [] }

  /** All chains on their way to `v`. */
  function Incoming(channels: seq<Channel>, v: nat): seq<seq<Block>> {
    if channels == [] then []
    else
      var n := |channels| - 1;
      Incoming(channels[..n], v) + Brings(channels[n], v)
  }

  /** A response, or a line that says nothing. */
  predicate Responds(l: Heard) { l.Rejected? || (l.Ok? && l.value.ChainResponse?) }

  /** Nothing but responses on the way, and nothing pending. */
  ghost predicate Responding(s: Net) {
    && Shaped(s) && AllAccepted(s)
    && (forall u: nat | u < |s.peers| :: s.peers[u].jobs == [])
    && (forall c: nat | c < |s.channels| :: forall l | l in s.channels[c].queue :: Responds(l))
  }

  predicate Drained(s: Net) { forall c: nat | c < |s.channels| :: s.channels[c].queue == [] }

  /** `x` is what `more` has beyond `fewer`, if anything. */
  ghost predicate OneMore(more: seq<seq<Block>>, fewer: seq<seq<Block>>, x: Option<seq<Block>>) {
    forall c :: c in more <==> c in fewer || x == Some(c)
  }

  /** The channel without its first message. */
  function Taken(ch: Channel): Channel
    requires ch.queue != []
  {
    ch.(queue := ch.queue[1..])
  }

  /** The chain that is read from a message, if it is for `v`. */
  function ReadBy(ch: Channel, v: nat): Option<seq<Block>>
    requires ch.queue != []
  {
    var l := ch.queue[0];
    if ch.dst == v && l.Ok? && l.value.ChainResponse? then Some(l.value.chain) else None
  }

  /** What one channel brings to `v`. */
  function Brings(ch: Channel, v: nat): seq<seq<Block>> { if ch.dst == v then ChainsRead(ch.queue) else [] }

  lemma BringsTakes(ch: Channel, v: nat)
    requires ch.queue != []
    ensures OneMore(Brings(ch, v), Brings(Taken(ch), v), ReadBy(ch, v))
  {
  }

  lemma MoreOnEither(more: seq<seq<Block>>, fewer: seq<seq<Block>>, x: Option<seq<Block>>, other: seq<seq<Block>>)
    requires OneMore(more, fewer, x)
    ensures OneMore(more + other, fewer + other, x) && OneMore(other + more, other + fewer, x)
  {
  }

  lemma {:induction false} IncomingTakes(channels: seq<Channel>, c: nat, v: nat)
    requires c < |channels| && channels[c].queue != []
    ensures OneMore(Incoming(channels, v), Incoming(channels[c := Taken(channels[c])], v), ReadBy(channels[c], v))
  {
    hide OneMore, ReadBy, Brings, ChainsRead;
    var n := |channels| - 1;
    var taken := channels[c := Taken(channels[c])];
    if c < n {
      assert taken[..n] == channels[..n][c := Taken(channels[c])];
      IncomingTakes(channels[..n], c, v);
      MoreOnEither(Incoming(channels[..n], v), Incoming(taken[..n], v), ReadBy(channels[c], v), Brings(channels[n], v));
    } else {
      assert taken[..n] == channels[..n];
      BringsTakes(channels[n], v);
      MoreOnEither(Brings(channels[n], v), Brings(taken[n], v), ReadBy(channels[n], v), Incoming(channels[..n], v));
    }
  }

  /** Taking one chain out of what is incoming leaves the best length the same. */
  lemma BestStaysBest(sha: Hasher, chain: seq<Block>, more: seq<seq<Block>>, fewer: seq<seq<Block>>,
                      x: Option<seq<Block>>, n: nat)
    requires OneMore(more, fewer, x)
    ensures IsBestLength(sha, chain, more, n)
            <==> IsBestLength(sha, if x.Some? then Replace(sha, chain, x.value) else chain, fewer, n)
  {
    hide ChainValid;
    var next := if x.Some? then Replace(sha, chain, x.value) else chain;
    if IsBestLength(sha, chain, more, n) {
      if n != |next| {
        var c :| c in more && ChainValid(sha, c) && |c| == n;
        assert c in fewer;
      }
    }
    if IsBestLength(sha, next, fewer, n) {
      if n != |next| {
        var c :| c in fewer && ChainValid(sha, c) && |c| == n;
        assert c in more;
      } else if next != chain {
        assert x.value in more;
      }
    }
  }

  /** One of its own or of those that were on the way. */
  predicate Among(chain: seq<Block>, own: seq<Block>, incoming: seq<seq<Block>>) {
    chain == own || chain in incoming
  }

  lemma ResponseDelivered(sha: Hasher, s: Net, a: Action)
    requires Responding(s) && Enabled(sha, s, a) && IsTraffic(a)
    ensures a.Deliver? && Posts(sha, s, a) == [] && Next(sha, s, a).channels == Links(s, a)
    ensures var p, q, l := s.peers[Actor(s, a)], After(sha, s, a), s.channels[a.c].queue[0];
            && q.jobs == [] && q.table == p.table && (l.Ok? ==> l.value.ChainResponse?)
            && q.chain == if l.Ok? then Replace(sha, p.chain, l.value.chain) else p.chain
  {
    hide Shaped, Replace;
    assert forall u: nat | u < |s.peers| :: |s.peers[u].jobs| == 0;
    assert s.channels[a.c].queue[0] in s.channels[a.c].queue;
    var none: seq<Job> := [];
    assert none + none == none;
  }

  lemma AdoptingStep(sha: Hasher, s: Net, a: Action)
    requires Responding(s) && Enabled(sha, s, a) && IsTraffic(a)
    ensures Responding(Next(sha, s, a))
    ensures forall v: nat, n: nat | v < |s.peers| ::
              IsBestLength(sha, s.peers[v].chain, Incoming(s.channels, v), n)
              <==> IsBestLength(sha, Next(sha, s, a).peers[v].chain, Incoming(Next(sha, s, a).channels, v), n)
    ensures forall v: nat | v < |s.peers| ::
              && Among(Next(sha, s, a).peers[v].chain, s.peers[v].chain, Incoming(s.channels, v))
              && (forall c | c in Incoming(Next(sha, s, a).channels, v) :: c in Incoming(s.channels, v))
  {
    hide Next, After, Posts, Shaped, IsBestLength, Incoming, ReadBy;
    var t, u := Next(sha, s, a), Actor(s, a);
    ResponseDelivered(sha, s, a);
    PeersStay(sha, s, a);
    StaysResponding(sha, s, a);
    forall v: nat | v < |s.peers|
      ensures forall n: nat :: IsBestLength(sha, s.peers[v].chain, Incoming(s.channels, v), n)
                <==> IsBestLength(sha, t.peers[v].chain, Incoming(t.channels, v), n)
      ensures Among(t.peers[v].chain, s.peers[v].chain, Incoming(s.channels, v))
      ensures forall c | c in Incoming(t.channels, v) :: c in Incoming(s.channels, v)
    {
      IncomingTakes(s.channels, a.c, v);
      var x := ReadBy(s.channels[a.c], v);
      assert t.channels == s.channels[a.c := Taken(s.channels[a.c])];
      ReadByActor(sha, s, a, v);
      forall n: nat
        ensures IsBestLength(sha, s.peers[v].chain, Incoming(s.channels, v), n)
           <==> IsBestLength(sha, t.peers[v].chain, Incoming(t.channels, v), n)
      {
        BestStaysBest(sha, s.peers[v].chain, Incoming(s.channels, v), Incoming(t.channels, v), x, n);
      }
    }
  }

  /** The one who reads it is the actor. */
  lemma ReadByActor(sha: Hasher, s: Net, a: Action, v: nat)
    requires Responding(s) && Enabled(sha, s, a) && a.Deliver? && v < |s.peers|
    ensures var x := ReadBy(s.channels[a.c], v);
            var now := if v == Actor(s, a) then After(sha, s, a).chain else s.peers[v].chain;
            && now == (if x.Some? then Replace(sha, s.peers[v].chain, x.value) else s.peers[v].chain)
            && (now == s.peers[v].chain || x == Some(now))
  {
    hide Shaped, ChainValid, Next, Posts, After;
    ResponseDelivered(sha, s, a);
  }

  lemma StaysResponding(sha: Hasher, s: Net, a: Action)
    requires Responding(s) && Enabled(sha, s, a) && IsTraffic(a)
    ensures Responding(Next(sha, s, a))
  {
    hide Next, After, Posts, Shaped, Responds;
    ResponseDelivered(sha, s, a);
    ShapeKept(sha, s, a);
    PeersStay(sha, s, a);
    assert forall l | l in s.channels[a.c].queue[1..] :: l in s.channels[a.c].queue;
  }

  /** In silence all lines have been read. */
  lemma SilenceDrains(sha: Hasher, s: Net)
    requires Responding(s) && Silent(sha, s)
    ensures Drained(s)
  {
    forall c: nat | c < |s.channels| ensures s.channels[c].queue == [] {
      assert LinkShaped(s, c) && LinkShaped(s, Reverse(c));
      if s.channels[c].queue != [] { assert s.channels[c].queue[0] in s.channels[c].queue; }
      assert !Enabled(sha, s, Deliver(c)) by { assert IsTraffic(Deliver(c)); }
    }
  }

  /** A node that nothing is on its way to has the best length already. */
  lemma NothingIncoming(sha: Hasher, s: Net, v: nat, n: nat)
    requires Drained(s) && v < |s.peers|
    ensures IsBestLength(sha, s.peers[v].chain, Incoming(s.channels, v), n) <==> n == |s.peers[v].chain|
  {
    NoneIncoming(s.channels, v);
  }

  lemma {:induction false} NoneIncoming(channels: seq<Channel>, v: nat)
    requires forall c: nat | c < |channels| :: channels[c].queue == []
    ensures Incoming(channels, v) == []
  {
    if channels != [] { NoneIncoming(channels[..|channels| - 1], v); }
  }

  lemma {:induction false} AdoptingRuns(sha: Hasher, s: Net, run: seq<Action>)
    requires Responding(s) && IsRun(sha, s, run) && AllTraffic(run)
    ensures var t := Final(sha, s, run);
            && Responding(t) && |t.peers| == |s.peers|
            && (forall v: nat, n: nat | v < |s.peers| ::
                  IsBestLength(sha, s.peers[v].chain, Incoming(s.channels, v), n)
                  <==> IsBestLength(sha, t.peers[v].chain, Incoming(t.channels, v), n))
            && (forall v: nat | v < |s.peers| ::
                  && Among(t.peers[v].chain, s.peers[v].chain, Incoming(s.channels, v))
                  && (forall c | c in Incoming(t.channels, v) :: c in Incoming(s.channels, v)))
    decreases |run|
  {
    hide Next, Responding, IsBestLength, Incoming, Enabled, IsTraffic;
    if run != [] {
      assert run[0] in run && forall a | a in run[1..] :: a in run;
      AdoptingStep(sha, s, run[0]);
      PeersStay(sha, s, run[0]);
      AdoptingRuns(sha, Next(sha, s, run[0]), run[1..]);
    }
  }

  /**
   Who adopts, exactly. When responses are all that is on its way, then whatever
   the order in which they are read, in silence each node ends with a chain as
   long as the longest valid one that is read of what it was sent, or with its
   own if none is longer; and nobody passes anything on.
   */
  lemma AdoptionExactly(sha: Hasher, s: Net, run: seq<Action>, v: nat)
    requires Responding(s) && IsRun(sha, s, run) && AllTraffic(run) && v < |s.peers|
    requires Silent(sha, Final(sha, s, run))
    ensures |Final(sha, s, run).peers| == |s.peers|
    ensures var own, now := s.peers[v].chain, Final(sha, s, run).peers[v].chain;
            && IsBestLength(sha, own, Incoming(s.channels, v), |now|)
            && Among(now, own, Incoming(s.channels, v)) && Since(own, now)
  {
    hide Next, Responding, IsBestLength, Incoming, IsRun, Final, Silent;
    AdoptingRuns(sha, s, run);
    var t := Final(sha, s, run);
    SilenceDrains(sha, t);
    NothingIncoming(sha, t, v, |t.peers[v].chain|);
    AdoptingGrows(sha, s, run, v);
  }

  lemma {:induction false} AdoptingGrows(sha: Hasher, s: Net, run: seq<Action>, v: nat)
    requires Responding(s) && IsRun(sha, s, run) && AllTraffic(run) && v < |s.peers|
    ensures |Final(sha, s, run).peers| == |s.peers|
    ensures Since(s.peers[v].chain, Final(sha, s, run).peers[v].chain)
    decreases |run|
  {
    hide Next, After, Posts, Responding, Enabled, IsTraffic, ChainValid;
    if run != [] {
      assert run[0] in run && forall a | a in run[1..] :: a in run;
      ResponseDelivered(sha, s, run[0]);
      PeersStay(sha, s, run[0]);
      StaysResponding(sha, s, run[0]);
      AdoptingGrows(sha, Next(sha, s, run[0]), run[1..], v);
    }
  }

  // Who asks is answered

  /** A request of one node is all that is on its way, and nothing is pending. */
  ghost predicate Asking(s: Net, c: nat) {
    && Shaped(s) && AllAccepted(s) && c < |s.channels| && s.channels[c].queue == [Ok(RequestChain)]
    && (forall u: nat | u < |s.peers| :: s.peers[u].jobs == [])
    && (forall d: nat | d < |s.channels| && d != c :: s.channels[d].queue == [])
  }

  lemma AskingIsEnabled(sha: Hasher, s: Net, c: nat)
    requires Asking(s, c)
    ensures Enabled(sha, s, Deliver(c))
  {
    assert LinkShaped(s, c) && LinkShaped(s, Reverse(c));
  }

  /** All that can happen is that it is answered. */
  lemma OnlyTheAnswer(sha: Hasher, s: Net, c: nat, a: Action)
    requires Asking(s, c) && Enabled(sha, s, a) && IsTraffic(a)
    ensures a == Deliver(c)
  {
    assert forall u: nat | u < |s.peers| :: |s.peers[u].jobs| == 0;
  }

  /** The answer as it is read. */
  predicate AnswerIsOut(s: Net, t: Net, c: nat)
    requires c < |s.channels| && s.channels[c].dst < |s.peers|
  {
    && t.peers == s.peers && |t.channels| == |s.channels| && Reverse(c) < |t.channels|
    && t.channels[Reverse(c)].dst == s.channels[c].src
    && t.channels[Reverse(c)].queue == s.wire(ChainResponse(s.peers[s.channels[c].dst].chain))
    && (forall d: nat | d < |t.channels| && d != Reverse(c) :: t.channels[d].queue == [])
  }

  lemma AnswerOnItsWay(sha: Hasher, s: Net, c: nat)
    requires Asking(s, c) && TidyNet(sha, s) && Enabled(sha, s, Deliver(c))
    ensures AnswerIsOut(s, Next(sha, s, Deliver(c)), c) && Responding(Next(sha, s, Deliver(c)))
    ensures ReadAsPrinted(sha, s, ChainResponse(s.peers[s.channels[c].dst].chain))
  {
    hide Shaped, TidyPeer, TidyLine, TidyMsg, ReadAsPrinted;
    var a := Deliver(c);
    var t, u, v := Next(sha, s, a), s.channels[c].dst, s.channels[c].src;
    var m := ChainResponse(s.peers[u].chain);
    ReverseLeadsBack(s, c);
    ShapeKept(sha, s, a);
    var post := (Reverse(c), m);
    assert Posts(sha, s, a) == [post];
    TidyPosts(sha, s, a, post);
    TidyReading(sha, s, m);
    var left: seq<Heard> := [];
    assert s.channels[c].queue[1..] == left && left + s.wire(m) == s.wire(m);
    SendsOne(s.wire, Links(s, a), post);
    assert t.channels == Push(s.wire, Links(s, a), post);
    SamePeers(sha, s, a);
    forall l | l in s.wire(m) ensures Responds(l) { AnswerResponds(sha, s, m, l); }
    assert AllAccepted(t);
  }

  lemma SendsOne(wire: Msg -> seq<Heard>, channels: seq<Channel>, post: Post)
    ensures SendAll(wire, channels, [post]) == Push(wire, channels, post)
  {
    var posts := [post];
    assert posts[..0] == [];
    assert SendAll(wire, channels, posts[..0]) == channels;
  }

  lemma SamePeers(sha: Hasher, s: Net, a: Action)
    requires Enabled(sha, s, a) && a.Deliver? && s.channels[a.c].queue[0] == Ok(RequestChain)
    ensures Next(sha, s, a).peers == s.peers
  {
    var p := s.peers[Actor(s, a)];
    assert p.jobs + [] == p.jobs;
    assert After(sha, s, a) == p;
  }

  lemma AnswerResponds(sha: Hasher, s: Net, m: Msg, l: Heard)
    requires m.ChainResponse? && ReadAsPrinted(sha, s, m) && l in s.wire(m)
    ensures Responds(l)
  {
    hide Encode, Adoptable;
  }

  lemma OnlyOnReverse(channels: seq<Channel>, r: nat, w: nat)
    requires r < |channels| && forall d: nat | d < |channels| && d != r :: channels[d].queue == []
    ensures Incoming(channels, w) == Brings(channels[r], w)
  {
    var n := |channels| - 1;
    if r == n {
      NoneIncoming(channels[..n], w);
    } else {
      OnlyOnReverse(channels[..n], r, w);
      assert Brings(channels[n], w) == [];
    }
  }

  lemma {:induction false} RejectedSaysNothing(queue: seq<Heard>)
    requires forall l | l in queue :: l == Rejected
    ensures ChainsRead(queue) == []
  {
    if queue != [] {
      assert queue[0] in queue && forall l | l in queue[1..] :: l in queue;
      RejectedSaysNothing(queue[1..]);
    }
  }

  /** Only the first line of the answer can bring a chain. */
  lemma AnswerBrings(sha: Hasher, s: Net, m: Msg)
    requires ReadAsPrinted(sha, s, m)
    ensures s.wire(m) != [] && ChainsRead(s.wire(m)) == ChainOf(s.wire(m)[0])
  {
    hide Encode, ReadInPart;
    var lines := s.wire(m);
    forall l | l in lines[1..] ensures l == Rejected {
      var q :| 0 <= q < |lines| - 1 && lines[1..][q] == l;
      assert lines[q + 1] == l;
    }
    RejectedSaysNothing(lines[1..]);
    assert ChainOf(lines[0]) + [] == ChainOf(lines[0]);
  }

  /** What becomes of the asker, by what is read of the answer. */
  predicate AnswerTaken(sha: Hasher, own: seq<Block>, other: seq<Block>, now: seq<Block>) {
    if |own| >= |other| then now == own
    else if FitsBuffer(other) then now == other
    else now == own || now < other
  }

  lemma AnswerTakenBy(sha: Hasher, s: Net, own: Held, other: Held, now: seq<Block>)
    requires ReadAsPrinted(sha, s, ChainResponse(other)) && ChainValid(sha, other)
    requires IsBestLength(sha, own, ChainOf(s.wire(ChainResponse(other))[0]), |now|)
    requires Among(now, own, ChainOf(s.wire(ChainResponse(other))[0])) && Since(own, now)
    ensures AnswerTaken(sha, own, other, now)
  {
    hide Encode, ChainValid;
    var l := s.wire(ChainResponse(other))[0];
    var got := ChainOf(l);
    assert FitsBuffer(other) ==> got == [other] && other in got;
    if now != own {
      assert now in got && got == [now];
      var x :| x in got && ChainValid(sha, x) && |x| == |now|;
      assert Adoptable(sha, now);
    }
  }

  /**
   Synchronization, exactly. When a node asks another for its chain, and nothing
   else goes on, then in silence it holds a chain as long as the other's if and
   only if it held one before, or the line of the answer loses no more than
   seven characters in the asker's buffer. A longer line leaves it with its own
   chain or with the beginning of the other. Nobody else's chain changes.
   */
  lemma SynchronizedExactly(sha: Hasher, g: Block, s: Net, run: seq<Action>, c: nat)
    requires Asking(s, c) && NetHonest(sha, g, s) && TidyNet(sha, s)
    requires IsRun(sha, s, run) && AllTraffic(run) && Silent(sha, Final(sha, s, run))
    ensures var t, u, v := Final(sha, s, run), s.channels[c].dst, s.channels[c].src;
            && u < |s.peers| && v < |s.peers| == |t.peers|
            && AnswerTaken(sha, s.peers[v].chain, s.peers[u].chain, t.peers[v].chain)
            && (|t.peers[v].chain| >= |s.peers[u].chain|
                <==> |s.peers[v].chain| >= |s.peers[u].chain| || FitsBuffer(s.peers[u].chain))
            && forall w: nat | w < |s.peers| && w != v :: t.peers[w].chain == s.peers[w].chain
  {
    hide Next, Enabled, TidyNet, ReadAsPrinted, Responding, IsTraffic, FitsBuffer, Silent, Asking, NetHonest;
    AskingLeads(sha, g, s, c);
    if run == [] { AskingIsNotSilent(sha, s, c); }
    assert run[0] in run && forall a | a in run[1..] :: a in run;
    OnlyTheAnswer(sha, s, c, run[0]);
    AnswerOnItsWay(sha, s, c);
    var s1 := Next(sha, s, Deliver(c));
    var t := Final(sha, s1, run[1..]);
    assert t == Final(sha, s, run);
    forall w: nat | w < |s.peers| ensures |t.peers| == |s.peers| && SettledAs(sha, s, c, w, t) {
      AfterTheAnswer(sha, s, s1, run[1..], c, w);
    }
    assert SettledAs(sha, s, c, s.channels[c].src, t);
    forall w: nat | w < |s.peers| && w != s.channels[c].src ensures t.peers[w].chain == s.peers[w].chain {
      assert SettledAs(sha, s, c, w, t);
    }
  }

  /** So nodes with long chains synchronize nobody: asked by a node that is behind,
      they leave it behind. */
  lemma LongChainsSynchronizeNobody(sha: Hasher, g: Block, s: Net, run: seq<Action>, c: nat)
    requires IsGenesis(sha, g) && Asking(s, c) && NetHonest(sha, g, s) && TidyNet(sha, s)
    requires IsRun(sha, s, run) && AllTraffic(run) && Silent(sha, Final(sha, s, run))
    requires s.channels[c].dst < |s.peers| && s.channels[c].src < |s.peers|
    requires |s.peers[s.channels[c].dst].chain| >= TOO_MANY
    requires |s.peers[s.channels[c].src].chain| < |s.peers[s.channels[c].dst].chain|
    ensures s.channels[c].src < |Final(sha, s, run).peers|
    ensures |Final(sha, s, run).peers[s.channels[c].src].chain| < |s.peers[s.channels[c].dst].chain|
  {
    hide TidyNet, FitsBuffer, Silent, Final, IsRun, IsGenesis, HonestChain, IsDigest, AnswerTaken;
    SynchronizedExactly(sha, g, s, run, c);
    var chain := s.peers[s.channels[c].dst].chain;
    assert PeerHonest(sha, g, s.peers[s.channels[c].dst]);
    forall i | 0 <= i < |chain| ensures |chain[i].prevHash| == |chain[i].hash| == 64 {
      HonestHashes(sha, g, chain, i);
      DigestLength(chain[i].hash);
      DigestLength(chain[i].prevHash);
    }
    ManyNeverFit(chain);
  }

  lemma DigestLength(s: string)
    requires IsDigest(s)
    ensures |s| == 64
  {
  }

  lemma AskingLeads(sha: Hasher, g: Block, s: Net, c: nat)
    requires Asking(s, c) && NetHonest(sha, g, s)
    ensures c < |s.channels| && s.channels[c].dst < |s.peers| && s.channels[c].src < |s.peers|
    ensures ChainValid(sha, s.peers[s.channels[c].dst].chain)
  {
    hide ChainValid;
    assert LinkShaped(s, c);
    assert PeerHonest(sha, g, s.peers[s.channels[c].dst]);
  }

  lemma AskingIsNotSilent(sha: Hasher, s: Net, c: nat)
    requires Asking(s, c)
    ensures !Silent(sha, s)
  {
    hide Enabled, Asking;
    AskingIsEnabled(sha, s, c);
    assert IsTraffic(Deliver(c));
  }

  /** How node `w` ends. */
  predicate SettledAs(sha: Hasher, s: Net, c: nat, w: nat, t: Net)
    requires c < |s.channels| && s.channels[c].dst < |s.peers|
  {
    && w < |s.peers| && w < |t.peers|
    && if w == s.channels[c].src
       then AnswerTaken(sha, s.peers[w].chain, s.peers[s.channels[c].dst].chain, t.peers[w].chain)
       else t.peers[w].chain == s.peers[w].chain
  }

  lemma AfterTheAnswer(sha: Hasher, s: Net, s1: Net, run: seq<Action>, c: nat, w: nat)
    requires c < |s.channels| && s.channels[c].dst < |s.peers| && AnswerIsOut(s, s1, c) && Responding(s1)
    requires ChainValid(sha, s.peers[s.channels[c].dst].chain)
    requires ReadAsPrinted(sha, s, ChainResponse(s.peers[s.channels[c].dst].chain))
    requires IsRun(sha, s1, run) && AllTraffic(run) && Silent(sha, Final(sha, s1, run)) && w < |s.peers|
    ensures |Final(sha, s1, run).peers| == |s.peers| && SettledAs(sha, s, c, w, Final(sha, s1, run))
  {
    hide ReadAsPrinted, Responding, FitsBuffer, IsBestLength, Silent, ChainValid, IsRun, Final, AnswerTaken;
    var other := s.peers[s.channels[c].dst].chain;
    AdoptionExactly(sha, s1, run, w);
    OnlyOnReverse(s1.channels, Reverse(c), w);
    AnswerBrings(sha, s, ChainResponse(other));
    var now := Final(sha, s1, run).peers[w].chain;
    if w == s.channels[c].src {
      AnswerTakenBy(sha, s, s.peers[w].chain, other, now);
    } else {
      NothingToAdopt(sha, s.peers[w].chain, now);
    }
  }

  lemma NothingToAdopt(sha: Hasher, own: seq<Block>, now: seq<Block>)
    requires Among(now, own, [])
    ensures now == own
  {
  }

  // Whatever else goes on

  /** A valid chain at least as long is among what is read. */
  ghost predicate WillGet(sha: Hasher, queue: seq<Heard>, n: nat) {
    exists chain :: Ok(ChainResponse(chain)) in queue && ChainValid(sha, chain) && |chain| >= n
  }

  /** `v` has asked `u` on channel `c`, and is owed a chain of length `n`: it has
      one, or one is on its way, or its request is. */
  ghost predicate Owed(sha: Hasher, s: Net, c: nat, n: nat) {
    && c < |s.channels| && Reverse(c) < |s.channels|
    && var v, u := s.channels[c].src, s.channels[c].dst;
    && s.channels[Reverse(c)].dst == v && s.channels[Reverse(c)].src == u
    && u < |s.peers| && v < |s.peers|
    && (|| |s.peers[v].chain| >= n
        || WillGet(sha, s.channels[Reverse(c)].queue, n)
        || (Ok(RequestChain) in s.channels[c].queue && |s.peers[u].chain| >= n))
  }

  lemma ChannelsLast(sha: Hasher, s: Net, a: Action, c: nat)
    requires Enabled(sha, s, a) && c < |s.channels|
    ensures var t := Next(sha, s, a);
            && c < |t.channels| && t.channels[c].src == s.channels[c].src && t.channels[c].dst == s.channels[c].dst
            && (forall l | l in s.channels[c].queue ::
                  l in t.channels[c].queue || (a == Deliver(c) && l == s.channels[c].queue[0]))
            && (forall m, l | (c, m) in Posts(sha, s, a) && l in s.wire(m) :: l in t.channels[c].queue)
  {
    hide Posts, After;
    SendAllFrame(s.wire, Links(s, a), Posts(sha, s, a), c);
    var queue := s.channels[c].queue;
    if a == Deliver(c) { assert queue == [queue[0]] + queue[1..]; }
  }

  /** The step answers a request on channel `c`. */
  predicate Answers(s: Net, a: Action, c: nat) {
    c < |s.channels| && a == Deliver(c) && s.channels[c].queue != [] && s.channels[c].queue[0] == Ok(RequestChain)
  }

  /** If it does, the answer is read as it was printed. */
  predicate AnswerFits(s: Net, a: Action, c: nat) {
    Answers(s, a, c) && s.channels[c].dst < |s.peers| ==> FitsBuffer(s.peers[s.channels[c].dst].chain)
  }

  ghost predicate AnswersFit(sha: Hasher, s: Net, run: seq<Action>, c: nat)
    requires IsRun(sha, s, run)
    decreases |run|
  {
    run == [] || (AnswerFits(s, run[0], c) && AnswersFit(sha, Next(sha, s, run[0]), run[1..], c))
  }

  /** A request that is delivered is answered on the spot. */
  lemma RequestDelivered(sha: Hasher, g: Block, s: Net, a: Action, c: nat, n: nat)
    requires Shaped(s) && TidyNet(sha, s) && Enabled(sha, s, a) && Answers(s, a, c) && AnswerFits(s, a, c)
    requires PeerHonest(sha, g, s.peers[Actor(s, a)]) && |s.peers[Actor(s, a)].chain| >= n
    requires Reverse(c) < |s.channels|
    ensures Reverse(c) < |Next(sha, s, a).channels|
    ensures WillGet(sha, Next(sha, s, a).channels[Reverse(c)].queue, n)
  {
    hide Shaped, TidyPeer, TidyLine, TidyMsg, Next, Encode;
    var chain := s.peers[Actor(s, a)].chain;
    var m := ChainResponse(chain);
    assert (Reverse(c), m) in Posts(sha, s, a);
    TidyPosts(sha, s, a, (Reverse(c), m));
    TidyReading(sha, s, m);
    assert s.wire(m)[0] in s.wire(m);
    ChannelsLast(sha, s, a, Reverse(c));
    assert HonestChain(sha, g, chain);
  }

  /** And a chain that is delivered leaves its receiver with one as long. */
  lemma ResponseTaken(sha: Hasher, s: Net, a: Action, chain: seq<Block>)
    requires Enabled(sha, s, a) && a.Deliver? && s.channels[a.c].queue[0] == Ok(ChainResponse(chain))
    requires ChainValid(sha, chain)
    ensures |After(sha, s, a).chain| >= |chain|
  {
    hide ChainValid;
  }

  lemma StaysOwed(sha: Hasher, g: Block, s: Net, a: Action, c: nat, n: nat)
    requires Shaped(s) && NetHonest(sha, g, s) && TidyNet(sha, s) && Enabled(sha, s, a) && TidyAction(sha, a)
    requires Owed(sha, s, c, n) && AnswerFits(s, a, c)
    ensures Owed(sha, Next(sha, s, a), c, n)
  {
    hide Next, After, Posts, Shaped, TidyNet, PeerHonest, LineHonest, TidyAction, SendsUndistorted, FitsBuffer,
         ChainValid;
    var t, v, u := Next(sha, s, a), s.channels[c].src, s.channels[c].dst;
    TidinessKept(sha, s, a);
    HonestyKept(sha, g, s, a);
    PeersStay(sha, s, a);
    ChannelsLast(sha, s, a, c);
    ChannelsLast(sha, s, a, Reverse(c));
    assert Since(s.peers[v].chain, t.peers[v].chain) && Since(s.peers[u].chain, t.peers[u].chain);
    var back := s.channels[Reverse(c)].queue;
    if |s.peers[v].chain| >= n {
    } else if chain :| Ok(ChainResponse(chain)) in back && ChainValid(sha, chain) && |chain| >= n {
      if Ok(ChainResponse(chain)) !in t.channels[Reverse(c)].queue { ResponseTaken(sha, s, a, chain); }
    } else if Ok(RequestChain) !in t.channels[c].queue {
      assert PeerHonest(sha, g, s.peers[u]);
      RequestDelivered(sha, g, s, a, c, n);
    }
  }

  lemma {:induction false} OwedRuns(sha: Hasher, g: Block, s: Net, run: seq<Action>, c: nat, n: nat)
    requires Shaped(s) && NetHonest(sha, g, s) && TidyNet(sha, s) && Owed(sha, s, c, n)
    requires IsRun(sha, s, run) && AllTidy(sha, run) && AnswersFit(sha, s, run, c)
    ensures Owed(sha, Final(sha, s, run), c, n)
    decreases |run|
  {
    hide Next, Shaped, NetHonest, TidyNet, Owed, Enabled, TidyAction, SendsUndistorted, AnswerFits;
    if run != [] {
      assert run[0] in run && forall a | a in run[1..] :: a in run;
      ShapeKept(sha, s, run[0]);
      TidinessKept(sha, s, run[0]);
      HonestyKept(sha, g, s, run[0]);
      StaysOwed(sha, g, s, run[0], c, n);
      OwedRuns(sha, g, Next(sha, s, run[0]), run[1..], c, n);
    }
  }

  /**
   Synchronization under load. Whoever has asked for a chain holds, once both
   directions of that connection are empty, one that is as long as what the
   other held when the request was under way, whatever else went on meanwhile,
   if the chains that were answered with fit the buffer.
   */
  lemma AskingSynchronizes(sha: Hasher, g: Block, s: Net, run: seq<Action>, c: nat)
    requires Shaped(s) && NetHonest(sha, g, s) && TidyNet(sha, s) && IsRun(sha, s, run) && AllTidy(sha, run)
    requires c < |s.channels| && Ok(RequestChain) in s.channels[c].queue && AnswersFit(sha, s, run, c)
    ensures var t, v, u := Final(sha, s, run), s.channels[c].src, s.channels[c].dst;
            && c < |t.channels| && Reverse(c) < |t.channels|
            && v < |t.peers| && u < |s.peers|
            && (t.channels[c].queue == [] && t.channels[Reverse(c)].queue == [] ==>
                  |t.peers[v].chain| >= |s.peers[u].chain|)
  {
    hide Next, NetHonest, TidyNet, Enabled, TidyAction, IsRun, AnswersFit;
    assert LinkShaped(s, c);
    var n := |s.peers[s.channels[c].dst].chain|;
    ReverseLeadsBack(s, c);
    assert Owed(sha, s, c, n);
    OwedRuns(sha, g, s, run, c, n);
    EndsLast(sha, s, run, c);
  }

  lemma {:induction false} EndsLast(sha: Hasher, s: Net, run: seq<Action>, c: nat)
    requires IsRun(sha, s, run) && c < |s.channels|
    ensures var t := Final(sha, s, run);
            c < |t.channels| && t.channels[c].src == s.channels[c].src && t.channels[c].dst == s.channels[c].dst
    decreases |run|
  {
    hide Next, Enabled;
    if run != [] {
      ChannelsLast(sha, s, run[0], c);
      EndsLast(sha, Next(sha, s, run[0]), run[1..], c);
    }
  }
}
