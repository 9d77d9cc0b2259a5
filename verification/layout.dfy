/**
 The texts of the program, character by character: what is hashed and what is
 printed, as the format strings of the source put them together.
 */
module Layout {
  import opened Decimal
  import opened LibC
  import opened Records
  import opened Transactions
  import opened Blocks
  import opened Json
  import opened JsonLaws
  import opened Protocol
  import opened Codec
  import opened Cuts
  import opened Wire

  // What is hashed

  lemma FourParts(a: string, b: string, c: string, d: string)
    ensures var t, i, j := a + b + c + d, |a| + |b|, |a| + |b| + |c|;
            t[..|a|] == a && t[|a|..i] == b && t[i..j] == c && t[j..] == d
  {
  }

  /** Sender, receiver, amount and fee, one behind the other. */
  lemma TxPreImageLayout(tx: Tx)
    ensures var text, r := TxPreImage(tx), |tx.sender| + |tx.receiver|;
            var a := r + |Numeral(tx.amount)|;
            && |text| == a + |Numeral(tx.fee)|
            && text[..|tx.sender|] == tx.sender && text[|tx.sender|..r] == tx.receiver
            && text[r..a] == Numeral(tx.amount) && text[a..] == Numeral(tx.fee)
  {
    hide Numeral;
    FourParts(tx.sender, tx.receiver, Numeral(tx.amount), Numeral(tx.fee));
  }

  /** How long the hashes of the transactions are. */
  function Lengths(txs: seq<Tx>): nat {
    if txs == [] then 0 else Lengths(txs[..|txs| - 1]) + |txs[|txs| - 1].txHash|
  }

  lemma {:induction false} LengthsGrow(txs: seq<Tx>, i: nat, j: nat)
    requires i <= j <= |txs|
    ensures Lengths(txs[..i]) <= Lengths(txs[..j])
  {
    if i < j {
      assert txs[..j][..j - 1] == txs[..j - 1];
      LengthsGrow(txs, i, j - 1);
    }
  }

  lemma LengthsStep(txs: seq<Tx>, k: nat)
    requires k < |txs|
    ensures Lengths(txs[..k + 1]) == Lengths(txs[..k]) + |txs[k].txHash|
  {
    assert txs[..k + 1][..k] == txs[..k];
  }

  /** The hash of every transaction stands behind those in front of it. */
  lemma {:induction false} HashesLayout(txs: seq<Tx>, k: nat)
    requires k < |txs|
    ensures Lengths(txs[..k + 1]) == Lengths(txs[..k]) + |txs[k].txHash| <= |Hashes(txs)| == Lengths(txs)
    ensures Hashes(txs)[Lengths(txs[..k])..Lengths(txs[..k + 1])] == txs[k].txHash
  {
    var n := |txs| - 1;
    LengthsStep(txs, k);
    assert txs[..n + 1] == txs;
    if k < n {
      HashesLayout(txs[..n], k);
      assert txs[..n][..k] == txs[..k] && txs[..n][..k + 1] == txs[..k + 1];
    } else {
      HashesLength(txs[..n]);
    }
  }

  lemma {:induction false} HashesLength(txs: seq<Tx>)
    ensures |Hashes(txs)| == Lengths(txs)
  {
    if txs != [] { HashesLength(txs[..|txs| - 1]); }
  }

  lemma FiveParts(a: string, b: string, c: string, d: string, e: string)
    ensures var t, i := a + b + c + d + e, |a| + |b|;
            && t[..|a|] == a && t[|a|..i] == b && t[i..i + |c|] == c
            && t[i + |c|..i + |c| + |d|] == d && t[i + |c| + |d|..] == e
  {
  }

  /** Where the hashes of the transactions begin. */
  function HeaderLength(block: Block): nat {
    |Numeral(block.index)| + |SignedNumeral(block.timestamp)| + |block.prevHash| + |Numeral(block.nonce)|
  }

  /** Index, time stamp, parent and nonce, then the hashes of the transactions. */
  lemma BlockPreImageLayout(block: Block)
    ensures var text, i := PreImage(block), |Numeral(block.index)|;
            var t := i + |SignedNumeral(block.timestamp)|;
            var p, n := t + |block.prevHash|, HeaderLength(block);
            && |text| == n + Lengths(block.txs)
            && text[..i] == Numeral(block.index) && text[i..t] == SignedNumeral(block.timestamp)
            && text[t..p] == block.prevHash && text[p..n] == Numeral(block.nonce)
  {
    hide Numeral, SignedNumeral, Hashes, Lengths;
    FiveParts(Numeral(block.index), SignedNumeral(block.timestamp), block.prevHash, Numeral(block.nonce),
              Hashes(block.txs));
    HashesLength(block.txs);
  }

  /** The hashes stand in the order of the places of their transactions. */
  lemma TxHashStands(block: Block, k: nat)
    requires k < |block.txs|
    ensures var text, from := PreImage(block), HeaderLength(block) + Lengths(block.txs[..k]);
            from + |block.txs[k].txHash| <= |text| && text[from..from + |block.txs[k].txHash|] == block.txs[k].txHash
  {
    hide Numeral, SignedNumeral, Hashes, Lengths;
    var hashes, n := Hashes(block.txs), HeaderLength(block);
    HashesLayout(block.txs, k);
    StandsBehind(Header(block), hashes, Lengths(block.txs[..k]), Lengths(block.txs[..k + 1]));
  }

  lemma StandsBehind(s: string, t: string, a: nat, b: nat)
    requires a <= b <= |t|
    ensures (s + t)[|s| + a..|s| + b] == t[a..b]
  {
  }

  /** The genesis block of every node. */
  lemma GenesisLayout(sha: Hasher, g: Block)
    requires IsGenesis(sha, g)
    ensures g.index == 0 && g.timestamp == 1231006505 && g.txs == []
    ensures |g.prevHash| == 64 && forall c | c in g.prevHash :: c == '0'
    ensures g.hash == sha(Numeral(0) + Numeral(1231006505) + g.prevHash + Numeral(g.nonce)) && g.hash[..2] == "00"
  {
    hide Numeral;
    assert PreImage(GenesisTemplate().(nonce := g.nonce))
        == Numeral(0) + Numeral(1231006505) + g.prevHash + Numeral(g.nonce);
    assert NonceWorks(sha, GenesisTemplate(), g.nonce);
    assert g.hash[..2] == [g.hash[0], g.hash[1]];
  }

  // What is printed

  lemma OpenText(front: seq<Field>, key: string, v: string, head: string)
    requires front != [] && head == ",\"" + key + "\":"
    ensures OpenObject(front + [(key, v)]) == OpenObject(front) + head + v
  {
    OpenSnoc(front, key, v);
    Assoc(OpenObject(front), ",", "\"");
    Assoc(OpenObject(front), ",\"", key);
    Assoc(OpenObject(front), ",\"" + key, "\":");
    assert "," + "\"" == ",\"";
  }

  lemma OpenFirst(key: string, v: string, head: string)
    requires head == "{\"" + key + "\":"
    ensures OpenObject([(key, v)]) == head + v
  {
    assert "{" + "\"" == "{\"";
    Assoc("{", "\"", key + "\":");
    Assoc("\"", key, "\":");
    Assoc("{\"", key, "\":");
    Assoc("{", "\"" + key + "\":", v);
  }

  lemma TxFormat(tx: Tx)
    ensures PrintTx(tx) == "{\"sender\":" + Quote(Escape(tx.sender)) + ",\"receiver\":" + Quote(Escape(tx.receiver))
                         + ",\"amount\":" + Numeral(tx.amount) + ",\"fee\":" + Numeral(tx.fee)
                         + ",\"signature\":" + Quote(tx.signature) + ",\"tx_hash\":" + Quote(tx.txHash) + "}"
  {
    hide OpenObject, Numeral, Quote, Escape;
    var f := TxFields(Escape(tx.sender), Escape(tx.receiver), tx);
    assert "{\"" + "sender" + "\":" == "{\"sender\":" && ",\"" + "receiver" + "\":" == ",\"receiver\":";
    assert ",\"" + "amount" + "\":" == ",\"amount\":" && ",\"" + "fee" + "\":" == ",\"fee\":";
    assert ",\"" + "signature" + "\":" == ",\"signature\":" && ",\"" + "tx_hash" + "\":" == ",\"tx_hash\":";
    FirstOpens(f, "{\"sender\":");
    NextOpens(f, 1, ",\"receiver\":");
    NextOpens(f, 2, ",\"amount\":");
    NextOpens(f, 3, ",\"fee\":");
    NextOpens(f, 4, ",\"signature\":");
    NextOpens(f, 5, ",\"tx_hash\":");
    AllOpen(f);
  }

  lemma FirstOpens(f: seq<Field>, head: string)
    requires f != [] && head == "{\"" + f[0].0 + "\":"
    ensures OpenObject(f[..1]) == head + f[0].1
  {
    OpenFirst(f[0].0, f[0].1, head);
    assert f[..1] == [f[0]];
  }

  lemma NextOpens(f: seq<Field>, k: nat, head: string)
    requires 0 < k < |f| && head == ",\"" + f[k].0 + "\":"
    ensures OpenObject(f[..k + 1]) == OpenObject(f[..k]) + head + f[k].1
  {
    OpenText(f[..k], f[k].0, f[k].1, head);
    assert f[..k + 1] == f[..k] + [f[k]];
  }

  lemma AllOpen(f: seq<Field>)
    ensures Object(f) == OpenObject(f[..|f|]) + "}"
  {
    assert f[..|f|] == f;
  }

  lemma BlockFormat(block: Block)
    ensures PrintBlock(block) == "{\"index\":" + Numeral(block.index)
                               + ",\"timestamp\":" + SignedNumeral(block.timestamp)
                               + ",\"prev_hash\":" + Quote(block.prevHash) + ",\"nonce\":" + Numeral(block.nonce)
                               + ",\"hash\":" + Quote(block.hash) + ",\"tx_count\":" + Numeral(|block.txs|)
                               + ",\"transactions\":" + ("[" + Join(TxTexts(block.txs)) + "]") + "}"
  {
    hide OpenObject, Numeral, SignedNumeral, Quote, Join, TxTexts;
    var f := BlockFields(block, PrintTxs(block.txs));
    FrontFormat(block, PrintTxs(block.txs));
    assert ",\"" + "hash" + "\":" == ",\"hash\":" && ",\"" + "tx_count" + "\":" == ",\"tx_count\":";
    assert ",\"" + "transactions" + "\":" == ",\"transactions\":";
    NextOpens(f, 4, ",\"hash\":");
    NextOpens(f, 5, ",\"tx_count\":");
    NextOpens(f, 6, ",\"transactions\":");
    AllOpen(f);
  }

  lemma FrontFormat(block: Block, txs: string)
    ensures OpenObject(BlockFields(block, txs)[..4])
         == "{\"index\":" + Numeral(block.index) + ",\"timestamp\":" + SignedNumeral(block.timestamp)
          + ",\"prev_hash\":" + Quote(block.prevHash) + ",\"nonce\":" + Numeral(block.nonce)
  {
    hide OpenObject, Numeral, SignedNumeral, Quote;
    var f := BlockFields(block, txs);
    assert "{\"" + "index" + "\":" == "{\"index\":" && ",\"" + "timestamp" + "\":" == ",\"timestamp\":";
    assert ",\"" + "prev_hash" + "\":" == ",\"prev_hash\":" && ",\"" + "nonce" + "\":" == ",\"nonce\":";
    FirstOpens(f, "{\"index\":");
    NextOpens(f, 1, ",\"timestamp\":");
    NextOpens(f, 2, ",\"prev_hash\":");
    NextOpens(f, 3, ",\"nonce\":");
  }

  /** A quote or a backslash gets a backslash in front; nothing else changes. */
  lemma EscapeFormat(s: string, c: char, t: string)
    requires IsPlain(s)
    ensures Escape(s) == s
    ensures c == '\"' || c == '\\' ==> Escape(s + [c] + t) == s + ['\\', c] + Escape(t)
  {
    EscapePlain(s);
    EscapeConcat(s + [c], t);
    EscapeConcat(s, [c]);
    EscapeConcat([c], "");
  }

  /** A chain is printed with its length and all its blocks in order. */
  lemma ChainFormat(chain: seq<Block>)
    ensures PrintChain(chain) == "{\"length\":" + Numeral(|chain|) + ",\"blocks\":[" + Join(BlockTexts(chain)) + "]}"
    ensures |BlockTexts(chain)| == |chain|
    ensures forall i | 0 <= i < |chain| :: BlockTexts(chain)[i] == PrintBlock(chain[i])
  {
    hide PrintChain, Numeral, Join, PrintBlock;
    ChainText(chain);
  }

  /** Items stand in their order, with commas between them. */
  lemma ListFormat(items: seq<string>, item: string)
    ensures Join([]) == "" && Join([item]) == item
    ensures items != [] ==> Join(items + [item]) == Join(items) + "," + item
  {
    JoinSnoc(items, item);
    Assoc(Join(items), ",", item);
  }

  /** The lines of the protocol. */
  lemma LineFormat(m: Msg)
    ensures Encode(m) == match m
                         case NewBlock(block) => "{\"type\":0,\"payload\":" + PrintBlock(block) + "}"
                         case NewTx(tx) => "{\"type\":1,\"payload\":" + PrintTx(tx) + "}"
                         case RequestChain => "{\"type\":2,\"payload\":" + "{}" + "}"
                         case ChainResponse(chain) => "{\"type\":3,\"payload\":" + PrintChain(chain) + "}"
                         case Ping => "{\"type\":5,\"payload\":" + "{}" + "}"
                         case Pong => "{\"type\":6,\"payload\":" + "{}" + "}"
  {
    hide PrintBlock, PrintTx, PrintChain, PrintMsg;
    KindFormat(Kind(m), Payload(m), match m
                                    case NewBlock(_) => "{\"type\":0,\"payload\":"
                                    case NewTx(_) => "{\"type\":1,\"payload\":"
                                    case RequestChain => "{\"type\":2,\"payload\":"
                                    case ChainResponse(_) => "{\"type\":3,\"payload\":"
                                    case Ping => "{\"type\":5,\"payload\":"
                                    case Pong => "{\"type\":6,\"payload\":");
  }

  lemma KindFormat(kind: nat, payload: string, head: string)
    requires kind < 10 && head == "{\"type\":" + [DigitChar(kind)] + ",\"payload\":"
    ensures PrintMsg(kind, payload) == head + payload + "}"
  {
    hide PrintMsg;
    MsgText(kind, payload);
    assert "}\n" == "}" + "\n";
    Assoc(head + payload, "}", "\n");
    assert (PrintMsg(kind, payload) + "\n")[..|PrintMsg(kind, payload)|] == PrintMsg(kind, payload);
    assert (head + payload + "}" + "\n")[..|head + payload + "}"|] == head + payload + "}";
  }
}
