/**
 What a node does with a message and with a new connection: the handlers of
 `src/net.c`. A file descriptor is the number of a connection, and sending is
 noted down, line by line.
 */
module Handlers {
  import opened Machine
  import LibC
  import opened Records
  import opened Chains
  import opened Mining
  import opened Protocol
  import opened Codec
  import opened Deserializers
  import opened Wire

  /** A message and the connection it is sent on. */
  type Post = (nat, Msg)

  /** What a message does to its receiver: the new chain and mempool, an answer
      to the sender, and a block to relay to everybody else. */
  datatype Outcome = Outcome(chain: seq<Block>, pool: seq<Tx>, answer: Option<Msg>, relay: Option<Block>)

  /** `on_new_tx`: a full mempool drops the transaction. */
  function Pooled(pool: seq<Tx>, tx: Tx): seq<Tx> {
    if |pool| < MEMPOOL_SIZE then pool + [tx] else pool
  }

  function Handle(sha: Hasher, chain: seq<Block>, pool: seq<Tx>, m: Msg): Outcome
    requires |chain| > 0
  {
    match m
    case NewBlock(block) =>
      Outcome(AddBlock(sha, chain, block), pool, None, if Accepts(sha, chain, block) then Some(block) else None)
    case NewTx(tx) => Outcome(chain, Pooled(pool, tx), None, None)
    case RequestChain => Outcome(chain, pool, Some(ChainResponse(chain)), None)
    case ChainResponse(other) => Outcome(Replace(sha, chain, other), pool, None, None)
    case Ping => Outcome(chain, pool, Some(Pong), None)
    case Pong => Outcome(chain, pool, None, None)
  }

  /** What became of a line: nothing, when it says nothing. */
  function Effect(sha: Hasher, chain: seq<Block>, pool: seq<Tx>, got: Parsed<Msg>): Outcome
    requires |chain| > 0
  {
    if got.Ok? then Handle(sha, chain, pool, got.value) else Outcome(chain, pool, None, None)
  }

  /** To every peer, in the order of the table, but not to `except`. */
  function Broadcast(peers: seq<nat>, except: Option<nat>, m: Msg): seq<Post> {
    if peers == [] then []
    else
      var n := |peers| - 1;
      Broadcast(peers[..n], except, m) + if except == Some(peers[n]) then [] else [(peers[n], m)]
  }

  /** The whole mempool to one peer. */
  function PoolPosts(fd: nat, pool: seq<Tx>): seq<Post> {
    if pool == [] then [] else PoolPosts(fd, pool[..|pool| - 1]) + [(fd, NewTx(pool[|pool| - 1]))]
  }

  function Answer(fd: nat, answer: Option<Msg>): seq<Post> {
    if answer.Some? then [(fd, answer.value)] else []
  }

  function Relays(peers: seq<nat>, fd: nat, relay: Option<Block>): seq<Post> {
    if relay.Some? then Broadcast(peers, Some(fd), NewBlock(relay.value)) else []
  }

  lemma {:induction false} BroadcastReaches(peers: seq<nat>, except: Option<nat>, m: Msg, post: Post)
    ensures post in Broadcast(peers, except, m) <==> post.1 == m && post.0 in peers && except != Some(post.0)
    ensures |Broadcast(peers, except, m)| <= |peers|
  {
    if peers != [] {
      var n := |peers| - 1;
      BroadcastReaches(peers[..n], except, m, post);
      assert post.0 in peers <==> post.0 in peers[..n] || post.0 == peers[n];
    }
  }

  /** In the order of the table. */
  lemma {:induction false} BroadcastInOrder(front: seq<nat>, back: seq<nat>, except: Option<nat>, m: Msg)
    ensures Broadcast(front + back, except, m) == Broadcast(front, except, m) + Broadcast(back, except, m)
  {
    if back == [] {
      assert front + back == front;
    } else {
      var n := |back| - 1;
      assert (front + back)[..|front + back| - 1] == front + back[..n];
      BroadcastInOrder(front, back[..n], except, m);
    }
  }

  lemma {:induction false} PoolPostsAre(fd: nat, pool: seq<Tx>, post: Post)
    ensures post in PoolPosts(fd, pool) <==> post.0 == fd && post.1.NewTx? && post.1.tx in pool
    ensures |PoolPosts(fd, pool)| == |pool|
    ensures forall i | 0 <= i < |pool| :: PoolPosts(fd, pool)[i] == (fd, NewTx(pool[i]))
  {
    if pool != [] {
      var n := |pool| - 1;
      PoolPostsAre(fd, pool[..n], post);
      assert forall tx :: tx in pool <==> tx in pool[..n] || tx == pool[n];
    }
  }

  // The text of what is sent

  type Line = (nat, string)

  function Text(post: Post): Line { (post.0, Encode(post.1) + "\n") }

  function Texts(posts: seq<Post>): (r: seq<Line>)
    ensures |r| == |posts|
  {
    seq(|posts|, i requires 0 <= i < |posts| => Text(posts[i]))
  }

  lemma TextsGrow(log: seq<Line>, posts: seq<Post>, post: Post)
    ensures log + Texts(posts + [post]) == log + Texts(posts) + [Text(post)]
  {
    hide Text;
    assert Texts(posts + [post]) == Texts(posts) + [Text(post)];
    LibC.Assoc(log, Texts(posts), [Text(post)]);
  }

  lemma TextsAfter(log: seq<Line>, first: seq<Post>, second: seq<Post>)
    ensures log + Texts(first) + Texts(second) == log + Texts(first + second)
  {
    hide Text;
    assert Texts(first + second) == Texts(first) + Texts(second);
    LibC.Assoc(log, Texts(first), Texts(second));
  }

  /** One copy of the text for each place in the table but those of `except`, and
      nothing else. */
  ghost predicate SentToAll<T(!new)>(lines: seq<(nat, T)>, peers: seq<nat>, except: Option<nat>, text: T) {
    forall line: (nat, T) ::
      multiset(lines)[line] == if line.1 == text && except != Some(line.0) then multiset(peers)[line.0] else 0
  }

  lemma SentToOneMore<T(!new)>(lines: seq<(nat, T)>, peers: seq<nat>, fd: nat, except: Option<nat>, text: T)
    requires SentToAll(lines, peers, except, text)
    ensures SentToAll(if except == Some(fd) then lines else lines + [(fd, text)], peers + [fd], except, text)
  {
  }

  lemma {:induction false} BroadcastSends(peers: seq<nat>, except: Option<nat>, m: Msg)
    ensures SentToAll(Broadcast(peers, except, m), peers, except, m)
  {
    hide SentToAll;
    if peers == [] {
      NothingSent(Broadcast(peers, except, m), except, m);
    } else {
      var n := |peers| - 1;
      var fewer := Broadcast(peers[..n], except, m);
      BroadcastSends(peers[..n], except, m);
      SentToOneMore(fewer, peers[..n], peers[n], except, m);
      assert peers == peers[..n] + [peers[n]] && fewer + [] == fewer;
    }
  }

  lemma {:induction false} LinesSent(peers: seq<nat>, except: Option<nat>, m: Msg)
    ensures SentToAll(Texts(Broadcast(peers, except, m)), peers, except, Encode(m) + "\n")
  {
    hide SentToAll, Encode;
    var text := Encode(m) + "\n";
    if peers == [] {
      NothingSent(Texts(Broadcast(peers, except, m)), except, text);
    } else {
      var n := |peers| - 1;
      var fewer, one := Broadcast(peers[..n], except, m), (peers[n], m);
      LinesSent(peers[..n], except, m);
      SentToOneMore(Texts(fewer), peers[..n], peers[n], except, text);
      assert peers == peers[..n] + [peers[n]] && fewer + [] == fewer;
      assert Texts(fewer + [one]) == Texts(fewer) + [(peers[n], text)];
    }
  }

  lemma NothingSent<T(!new)>(lines: seq<(nat, T)>, except: Option<nat>, text: T)
    requires lines == []
    ensures SentToAll(lines, [], except, text)
  {
  }

  lemma TxIsRead(tx: Tx)
    requires SendableTx(tx)
    ensures '\0' !in Encode(NewTx(tx)) && Decode(Encode(NewTx(tx))) == Ok(NewTx(tx))
  {
    hide Encode, Decode, SendableTx;
    ShortEnough(NewTx(tx));
    DecodesBack(NewTx(tx));
  }

  lemma SentBehind(log: seq<Line>, lines: seq<Line>, all: seq<Line>)
    requires all == log + lines
    ensures log <= all && all[|log|..] == lines
  {
  }

  class Node {
    const app: App
    const peers: array<nat>
    var peerCount: nat
    var sent: seq<Line>

    ghost predicate Valid()
      reads this, app, app.chain
    {
      && app.Valid() && app.chain.blocks as object != app.mempool
      && peerCount <= peers.Length == MAX_PEERS
    }

    function Peers(): seq<nat>
      requires peerCount <= peers.Length
      reads this, peers
    {
      peers[..peerCount]
    }

    function Chain(): (c: seq<Block>)
      requires app.chain.Valid()
      reads app.chain, app.chain.blocks
    {
      app.chain.Contents()
    }

    /** `node_init`, without the server socket. */
    constructor (app: App)
      requires app.Valid() && app.chain.blocks as object != app.mempool
      ensures Valid() && Peers() == [] && sent == [] && this.app == app && fresh(peers)
    {
      this.app := app;
      peers := new nat[MAX_PEERS](_ => 0);
      peerCount := 0;
      sent := [];
    }

    /** A message is printed and handed to `send_message`. */
    method Post(fd: nat, ghost m: Msg, kind: nat, payload: Option<CString>)
      requires kind == Kind(m) && Payload(m) == (if payload.Some? then payload.value else "{}")
      modifies this`sent
      ensures sent == old(sent) + Texts([(fd, m)])
    {
      var buf := SerializeMsg(kind, payload);
      ghost var text := PrintMsg(kind, Payload(m)) + "\n";
      LibC.TextInBuffer(buf, text);
      sent := sent + [(fd, LibC.TextOf(buf[..]))];
      assert Texts([(fd, m)]) == [Text((fd, m))];
    }

    /** `node_request_chain` */
    method RequestChainFrom(idx: int)
      requires Valid()
      modifies this`sent
      ensures sent == old(sent) + Texts(if 0 <= idx < peerCount then [(Peers()[idx], RequestChain)] else [])
    {
      if idx < 0 || idx >= peerCount {
        assert sent + [] == sent;
        return;
      }
      Post(peers[idx], RequestChain, MSG_REQUEST_CHAIN, None);
    }

    /** `node_send_tx` */
    method SendTx(fd: nat, tx: Tx)
      modifies this`sent
      ensures sent == old(sent) + Texts([(fd, NewTx(tx))])
    {
      var payload := TxText(tx);
      Post(fd, NewTx(tx), MSG_NEW_TX, Some(payload));
    }

    /** `on_peer_connected` */
    method SyncPool(fd: nat)
      requires Valid()
      modifies this`sent
      ensures sent == old(sent) + Texts(PoolPosts(fd, app.Pool()))
    {
      hide Text;
      ghost var pool := app.Pool();
      assert sent + [] == sent && pool[..0] == [];
      for i := 0 to app.mempoolCount
        invariant sent == old(sent) + Texts(PoolPosts(fd, pool[..i]))
      {
        SendTx(fd, app.mempool[i]);
        assert pool[..i + 1][..i] == pool[..i];
        TextsGrow(old(sent), PoolPosts(fd, pool[..i]), (fd, NewTx(pool[i])));
        assert Texts([(fd, NewTx(pool[i]))]) == [Text((fd, NewTx(pool[i])))];
      }
      assert pool[..app.mempoolCount] == pool;
    }

    /** `add_peer`: a full table refuses the connection. */
    method AddPeer(fd: nat) returns (ret: int)
      requires Valid()
      modifies this`peerCount, this`sent, peers
      ensures Valid()
      ensures ret == if |old(Peers())| < 16 then 0 else -1
      ensures Peers() == if ret == 0 then old(Peers()) + [fd] else old(Peers())
      ensures sent == old(sent) + Texts(if ret == 0 then [(fd, RequestChain)] + PoolPosts(fd, app.Pool()) else [])
    {
      if peerCount >= MAX_PEERS {
        assert sent + [] == sent;
        return -1;
      }
      var idx := peerCount;
      peers[idx] := fd;
      peerCount := peerCount + 1;
      RequestChainFrom(idx);
      SyncPool(fd);
      TextsAfter(old(sent), [(fd, RequestChain)], PoolPosts(fd, app.Pool()));
      return 0;
    }

    /** `node_connect_peer` behind a successful `connect`: the second request
        goes to whoever is last in the table. */
    method ConnectPeer(fd: nat)
      requires Valid()
      modifies this`peerCount, this`sent, peers
      ensures Valid()
      ensures Peers() == if |old(Peers())| < 16 then old(Peers()) + [fd] else old(Peers())
      ensures sent == old(sent)
                + Texts((if |old(Peers())| < 16 then [(fd, RequestChain)] + PoolPosts(fd, app.Pool()) else [])
                        + [(Peers()[|Peers()| - 1], RequestChain)])
    {
      hide Text;
      var ret := AddPeer(fd);
      RequestChainFrom(peerCount - 1);
      TextsAfter(old(sent), if ret == 0 then [(fd, RequestChain)] + PoolPosts(fd, app.Pool()) else [],
                 [(Peers()[|Peers()| - 1], RequestChain)]);
    }

    /** `broadcast_block_except`; nobody is excepted when the block is the node's own. */
    method BroadcastBlockExcept(block: Block, except: Option<nat>)
      requires Valid()
      modifies this`sent
      ensures sent == old(sent) + Texts(Broadcast(Peers(), except, NewBlock(block)))
      ensures old(sent) <= sent && SentToAll(sent[|old(sent)|..], Peers(), except, Encode(NewBlock(block)) + "\n")
    {
      hide Text, PrintBlock, SentToAll, Encode;
      var payload := BlockText(block);
      ghost var table, m := Peers(), NewBlock(block);
      assert sent + [] == sent && table[..0] == [];
      for i := 0 to peerCount
        invariant sent == old(sent) + Texts(Broadcast(table[..i], except, m))
      {
        assert table[..i + 1][..i] == table[..i];
        if except != Some(peers[i]) {
          Post(peers[i], m, MSG_NEW_BLOCK, Some(payload));
          TextsGrow(old(sent), Broadcast(table[..i], except, m), (table[i], m));
          assert Texts([(table[i], m)]) == [Text((table[i], m))];
        } else {
          assert Broadcast(table[..i], except, m) + [] == Broadcast(table[..i], except, m);
        }
      }
      assert table[..peerCount] == table;
      LinesSent(table, except, m);
      SentBehind(old(sent), Texts(Broadcast(table, except, m)), sent);
    }

    /** `node_broadcast_tx` */
    method BroadcastTx(tx: Tx)
      requires Valid()
      modifies this`sent
      ensures sent == old(sent) + Texts(Broadcast(Peers(), None, NewTx(tx)))
      ensures old(sent) <= sent && SentToAll(sent[|old(sent)|..], Peers(), None, Encode(NewTx(tx)) + "\n")
    {
      hide Text, SentToAll, Encode;
      ghost var table, m := Peers(), NewTx(tx);
      assert sent + [] == sent && table[..0] == [];
      for i := 0 to peerCount
        invariant sent == old(sent) + Texts(Broadcast(table[..i], None, m))
      {
        assert table[..i + 1][..i] == table[..i];
        SendTx(peers[i], tx);
        TextsGrow(old(sent), Broadcast(table[..i], None, m), (table[i], m));
        assert Texts([(table[i], m)]) == [Text((table[i], m))];
      }
      assert table[..peerCount] == table;
      LinesSent(table, None, m);
      SentBehind(old(sent), Texts(Broadcast(table, None, m)), sent);
    }

    /** MSG_CHAIN_RESPONSE: the chain is read into one of its own, then compared. */
    method OnChainResponse(payload: CString)
      requires Valid()
      modifies app.chain`length, app.chain.blocks
      ensures Valid()
      ensures match ParseChain(payload)
              case Ok(chain) => Chain() == Replace(app.sha, old(Chain()), chain)
              case Rejected => Chain() == old(Chain())
              case OutsideModel => true
    {
      hide ParseChain, ChainValid;
      var other := new Blockchain.Empty(app.sha);
      var length := DeserializeChain(payload, other.blocks);
      if length.Ok? {
        other.length := length.value;
        var ret := app.chain.ReplaceWith(other);
      }
    }

    /** MSG_NEW_BLOCK */
    method OnNewBlock(fd: nat, payload: CString)
      requires Valid()
      modifies this`sent, app.chain`length, app.chain.blocks
      ensures Valid() && Peers() == old(Peers())
      ensures match ParseBlock(payload)
              case Ok(block) =>
                var o := Handle(app.sha, old(Chain()), [], NewBlock(block));
                Chain() == o.chain && sent == old(sent) + Texts(Relays(Peers(), fd, o.relay))
              case Rejected => Chain() == old(Chain()) && sent == old(sent)
              case OutsideModel => true
      ensures ParseBlock(payload).Ok? ==>
                var block := ParseBlock(payload).value;
                if Accepts(app.sha, old(Chain()), block)
                then
                  && Chain() == old(Chain()) + [block] && old(sent) <= sent
                  && SentToAll(sent[|old(sent)|..], Peers(), Some(fd), Encode(NewBlock(block)) + "\n")
                else Chain() == old(Chain()) && sent == old(sent)
    {
      hide ParseBlock, Broadcast, SentToAll, Texts, Accepts;
      assert sent + [] == sent;
      var block := DeserializeBlock(payload);
      if block.Ok? {
        var ret := app.chain.Add(block.value);
        if ret == 0 {
          BroadcastBlockExcept(block.value, Some(fd));
        }
      }
    }

    /**
     `handle_message`: the line is parsed, and what it says is done. A line
     that says nothing changes nothing.
     */
    method HandleMessage(fd: nat, raw: CString)
      requires Valid()
      modifies this`sent, app`mempoolCount, app.mempool, app.chain`length, app.chain.blocks
      ensures Valid() && Peers() == old(Peers())
      ensures !Decode(raw).OutsideModel? ==>
                var o := Effect(app.sha, old(Chain()), old(app.Pool()), Decode(raw));
                && Chain() == o.chain && app.Pool() == o.pool
                && sent == old(sent) + Texts(Answer(fd, o.answer) + Relays(Peers(), fd, o.relay))
      ensures match Decode(raw)
              case Ok(NewBlock(block)) =>
                && app.Pool() == old(app.Pool())
                && if Accepts(app.sha, old(Chain()), block)
                   then
                     && Chain() == old(Chain()) + [block] && old(sent) <= sent
                     && SentToAll(sent[|old(sent)|..], Peers(), Some(fd), Encode(NewBlock(block)) + "\n")
                   else Chain() == old(Chain()) && sent == old(sent)
              case Ok(NewTx(tx)) =>
                && Chain() == old(Chain()) && sent == old(sent)
                && app.Pool() == if |old(app.Pool())| < 100 then old(app.Pool()) + [tx] else old(app.Pool())
              case Ok(RequestChain) =>
                && Chain() == old(Chain()) && app.Pool() == old(app.Pool())
                && sent == old(sent) + [(fd, Encode(ChainResponse(Chain())) + "\n")]
              case Ok(ChainResponse(other)) =>
                && app.Pool() == old(app.Pool()) && sent == old(sent)
                && Chain() == if |other| > |old(Chain())| && ChainValid(app.sha, other) then other else old(Chain())
              case Ok(Ping) =>
                && Chain() == old(Chain()) && app.Pool() == old(app.Pool())
                && sent == old(sent) + [(fd, Encode(Pong) + "\n")]
              case Ok(Pong) => Chain() == old(Chain()) && app.Pool() == old(app.Pool()) && sent == old(sent)
              case Rejected => Chain() == old(Chain()) && app.Pool() == old(app.Pool()) && sent == old(sent)
              case OutsideModel => true
      ensures forall tx | SendableTx(tx) && raw == Encode(NewTx(tx)) ::
                app.Pool() == if |old(app.Pool())| < 100 then old(app.Pool()) + [tx] else old(app.Pool())
    {
      hide ParseMsg, ParseBlock, ParseTx, ParseChain, Broadcast, ChainValid, Accepts, SentToAll, Encode;
      forall tx | SendableTx(tx) && raw == Encode(NewTx(tx)) ensures Decode(raw) == Ok(NewTx(tx)) { TxIsRead(tx); }
      assert sent + [] == sent;
      var kind, payload := DeserializeMsg(raw);
      if kind == MSG_NEW_BLOCK {
        if payload.Some? {
          OnNewBlock(fd, payload.value);
        }
      } else if kind == MSG_NEW_TX {
        if payload.Some? {
          var tx, ret := DeserializeTx(payload.value);
          if ret == 0 {
            app.OnNewTx(tx);
          }
        }
      } else if kind == MSG_REQUEST_CHAIN {
        AnswerWithChain(fd);
      } else if kind == MSG_CHAIN_RESPONSE {
        if payload.Some? {
          OnChainResponse(payload.value);
        }
      } else if kind == MSG_PING {
        Post(fd, Pong, MSG_PONG, None);
      }
    }

    method AnswerWithChain(fd: nat)
      requires Valid()
      modifies this`sent
      ensures sent == old(sent) + Texts([(fd, ChainResponse(Chain()))])
    {
      var chain := app.chain.blocks[..app.chain.length];
      var buf := SerializeChain(chain);
      LibC.TextInBuffer(buf, PrintChain(chain));
      Post(fd, ChainResponse(chain), MSG_CHAIN_RESPONSE, Some(LibC.TextOf(buf[..])));
    }
  }
}
