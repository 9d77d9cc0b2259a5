/**
 Chains and whole messages: what a node prints for the wire is what its peer
 reads, through the payload scan and both levels of the brace scan.
 */
module Messages {
  import opened Machine
  import opened Decimal
  import opened LibC
  import opened Records
  import opened Json
  import opened JsonLaws
  import opened Scanners
  import opened ScanLaws
  import opened Protocol
  import opened BraceLaws
  import opened Codec
  import opened RoundTrip

  // Chains

  lemma PrintBlockIsObject(block: Block)
    requires WellFormedBlock(block)
    ensures IsObject(PrintBlock(block))
  {
    BlockIsBalanced(block);
    var body := Fields(BlockFields(block, PrintTxs(block.txs)));
    assert PrintBlock(block)[1..|PrintBlock(block)| - 1] == body;
  }

  lemma WholeBlock(block: Block)
    requires WellFormedBlock(block)
    ensures '\0' !in PrintBlock(block) && ParseBlock(PrintBlock(block)) == Ok(block)
  {
    hide ParseBlock;
    BlockRoundTrip(block, "");
    assert PrintBlock(block) + "" == PrintBlock(block);
  }

  /** The loop over the blocks of a chain reads back the printed list. */
  lemma {:induction false} ParsesBlocks(lead: string, chain: seq<Block>, rest: CString)
    requires lead == "" || lead == ","
    requires rest != "" && forall i | 0 <= i < |chain| :: WellFormedBlock(chain[i])
    ensures '\0' !in Join(BlockTexts(chain))
    ensures ParseBlocks(lead + (Join(BlockTexts(chain)) + rest), |chain|) == Ok(chain)
    decreases |chain|
  {
    hide NextObject, ParseBlock, WellFormedBlock, IsObject, Join, PrintBlock;
    BlockListFits(chain);
    if chain != [] {
      var items := BlockTexts(chain);
      PrintBlockIsObject(chain[0]);
      CutsFirst(lead, items, rest);
      WholeBlock(chain[0]);
      assert items[1..] == BlockTexts(chain[1..]);
      assert [chain[0]] + chain[1..] == chain;
      if |chain| > 1 { ParsesBlocks(",", chain[1..], rest); }
    }
  }

  lemma ChainFindable(chain: seq<Block>)
    ensures Findable(ChainFields(chain), 0) && Findable(ChainFields(chain), 1)
  {
    assert |"length"| == |"blocks"|;
    var a, b := "length", "blocks";
    assert a[0] != b[0] && IsKey(a) && IsKey(b);
    NumeralIsSafe(|chain|);
  }

  lemma PrintChainFits(chain: seq<Block>)
    ensures '\0' !in PrintChain(chain)
  {
    hide PrintChain, ChainHead, Join, Numeral;
    ChainHeadIsText(chain);
    BlockListFits(chain);
    ChainText(chain);
  }

  predicate WellFormedChain(chain: seq<Block>) {
    1 <= |chain| <= MAX_BLOCKS && forall i | 0 <= i < |chain| :: WellFormedBlock(chain[i])
  }

  /** A chain comes back block by block, whatever stands behind it. */
  lemma ChainRoundTrip(chain: seq<Block>, tail: CString)
    requires WellFormedChain(chain)
    ensures '\0' !in PrintChain(chain) + tail && ParseChain(PrintChain(chain) + tail) == Ok(chain)
  {
    hide ParseBlocks, GetInt, ValueOf, BlockTexts, Join, WellFormedBlock, Findable;
    PrintChainFits(chain);
    ChainFindable(chain);
    var f, items := ChainFields(chain), Join(BlockTexts(chain));
    ReadsInt(f, 0, tail, |chain|);
    FindsTheField(f, 1, tail);
    Assoc("[", items, "]");
    Assoc("[", items + "]", "}" + tail);
    Assoc(items, "]", "}" + tail);
    var v := "[" + items + "]" + ("}" + tail);
    assert v[1..] == "" + (items + ("]" + ("}" + tail)));
    ParsesBlocks("", chain, "]" + ("}" + tail));
  }

  // Payloads

  lemma NumeralIsNeutral(n: nat)
    ensures Neutral(Numeral(n))
  {
    assert forall i | 0 <= i < |Numeral(n)| :: IsDigit(Numeral(n)[i]);
    QuietIsNeutral(Numeral(n));
  }

  lemma SignedIsNeutral(n: int)
    ensures Neutral(SignedNumeral(n))
  {
    var m := if n < 0 then 0 - n else n;
    NumeralIsNeutral(m);
    QuietIsNeutral("-");
    NeutralConcat("-", Numeral(m));
  }

  lemma PlainIsNeutral(s: string)
    requires IsPlain(s)
    ensures Neutral(Quote(s))
  {
    EscapePlain(s);
    QuotedIsNeutral(s);
  }

  /** No address ends in a backslash. */
  predicate Transportable(tx: Tx) {
    Printable(tx) && !EndsInBackslash(tx.sender) && !EndsInBackslash(tx.receiver)
  }

  predicate TransportableBlock(block: Block) {
    && IsPlain(block.prevHash) && IsPlain(block.hash)
    && forall i | 0 <= i < |block.txs| :: Transportable(block.txs[i])
  }

  lemma TxBodyIsNeutral(tx: Tx)
    requires Transportable(tx)
    ensures Neutral(Fields(TxFields(Escape(tx.sender), Escape(tx.receiver), tx)))
  {
    hide IsKey, Neutral;
    var f := TxFields(Escape(tx.sender), Escape(tx.receiver), tx);
    TxKeys(Escape(tx.sender), Escape(tx.receiver), tx);
    QuotedIsNeutral(tx.sender);
    QuotedIsNeutral(tx.receiver);
    NumeralIsNeutral(tx.amount);
    NumeralIsNeutral(tx.fee);
    PlainIsNeutral(tx.signature);
    PlainIsNeutral(tx.txHash);
    FieldsAreNeutral(f);
  }

  lemma {:induction false} JoinIsNeutral(items: seq<string>)
    requires forall i | 0 <= i < |items| :: Neutral(items[i])
    ensures Neutral(Join(items))
  {
    if items == [] {
      QuietIsNeutral("");
    } else if |items| > 1 {
      JoinIsNeutral(items[1..]);
      QuietIsNeutral(",");
      NeutralConcat(items[0], ",");
      NeutralConcat(items[0] + ",", Join(items[1..]));
    }
  }

  lemma TxsAreNeutral(txs: TxList)
    requires forall i | 0 <= i < |txs| :: Transportable(txs[i])
    ensures Neutral(PrintTxs(txs))
  {
    hide Neutral, Transportable;
    forall i | 0 <= i < |txs| ensures Neutral(TxTexts(txs)[i]) {
      TxBodyIsNeutral(txs[i]);
      BracketedIsNeutral('{', Fields(TxFields(Escape(txs[i].sender), Escape(txs[i].receiver), txs[i])), '}');
    }
    JoinIsNeutral(TxTexts(txs));
    BracketedIsNeutral('[', Join(TxTexts(txs)), ']');
  }

  lemma BlockBodyIsNeutral(block: Block)
    requires TransportableBlock(block)
    ensures Neutral(Fields(BlockFields(block, PrintTxs(block.txs))))
  {
    hide IsKey, Neutral, PrintTxs, Transportable;
    var f := BlockFields(block, PrintTxs(block.txs));
    BlockKeys(block, PrintTxs(block.txs));
    NumeralIsNeutral(block.index);
    SignedIsNeutral(block.timestamp);
    PlainIsNeutral(block.prevHash);
    NumeralIsNeutral(block.nonce);
    PlainIsNeutral(block.hash);
    NumeralIsNeutral(|block.txs|);
    TxsAreNeutral(block.txs);
    FieldsAreNeutral(f);
  }

  lemma ChainKeys()
    ensures IsKey("length") && IsKey("blocks")
  {
  }

  lemma ChainBodyIsNeutral(chain: seq<Block>)
    requires forall i | 0 <= i < |chain| :: TransportableBlock(chain[i])
    ensures Neutral(Fields(ChainFields(chain)))
  {
    hide Neutral, TransportableBlock, Join, IsKey;
    forall i | 0 <= i < |chain| ensures Neutral(BlockTexts(chain)[i]) {
      BlockBodyIsNeutral(chain[i]);
      BracketedIsNeutral('{', Fields(BlockFields(chain[i], PrintTxs(chain[i].txs))), '}');
    }
    JoinIsNeutral(BlockTexts(chain));
    BracketedIsNeutral('[', Join(BlockTexts(chain)), ']');
    NumeralIsNeutral(|chain|);
    ChainKeys();
    FieldsAreNeutral(ChainFields(chain));
  }

  // Messages

  lemma MsgFindable(kind: nat, body: string)
    ensures Findable(MsgFields(kind, "{" + body + "}"), 0)
    ensures Findable(MsgFields(kind, "{" + body + "}"), 1)
  {
    assert |"type"| != |"payload"|;
    assert IsKey("type") && IsKey("payload");
    NumeralIsSafe(kind);
  }

  lemma PrintMsgFits(kind: nat, payload: string)
    requires kind <= 6 && '\0' !in payload
    ensures '\0' !in PrintMsg(kind, payload)
  {
    NumeralFits(kind);
    MsgText(kind, payload);
    var text := PrintMsg(kind, payload);
    assert forall i | 0 <= i < |text| :: text[i] == (text + "\n")[i];
  }

  /** Type and payload come back, when the payload is an object that the scan
      sees closed at its end. */
  lemma MsgRoundTrip(kind: nat, body: CString)
    requires kind <= 6 && Neutral(body)
    ensures var payload := "{" + body + "}";
            '\0' !in PrintMsg(kind, payload) && ParseMsg(PrintMsg(kind, payload)) == (kind, Some(payload))
  {
    hide GetInt, ValueOf, Findable, Neutral, PayloadEnd;
    var payload := "{" + body + "}";
    var f, json := MsgFields(kind, payload), PrintMsg(kind, payload);
    PrintMsgFits(kind, payload);
    MsgFindable(kind, body);
    assert json + "" == json;
    ReadsInt(f, 0, "", kind);
    FindsTheField(f, 1, "");
    PayloadCutExact(body, "}");
    assert "}" + "" == "}";
    assert (payload + "}")[..|payload|] == payload;
  }

  /** A relayed transaction reaches the peer field by field. */
  lemma TxMessageRoundTrip(tx: Tx)
    requires Transportable(tx)
    ensures '\0' !in PrintTx(tx) && '\0' !in PrintMsg(MSG_NEW_TX, PrintTx(tx))
    ensures ParseMsg(PrintMsg(MSG_NEW_TX, PrintTx(tx))) == (MSG_NEW_TX, Some(PrintTx(tx)))
    ensures ParseTx(PrintTx(tx)) == (tx, true)
  {
    hide ParseTx, ParseMsg, Neutral;
    TxRoundTrip(tx, "");
    assert PrintTx(tx) + "" == PrintTx(tx);
    var body := Fields(TxFields(Escape(tx.sender), Escape(tx.receiver), tx));
    TxBodyIsNeutral(tx);
    BodyIsText(body);
    MsgRoundTrip(MSG_NEW_TX, body);
  }

  lemma BodyIsText(body: string)
    requires '\0' !in "{" + body + "}"
    ensures '\0' !in body
  {
    assert forall i | 0 <= i < |body| :: body[i] == ("{" + body + "}")[i + 1];
  }

  /** A relayed block reaches the peer with all its transactions. */
  lemma BlockMessageRoundTrip(block: Block)
    requires WellFormedBlock(block) && TransportableBlock(block)
    ensures '\0' !in PrintBlock(block) && '\0' !in PrintMsg(MSG_NEW_BLOCK, PrintBlock(block))
    ensures ParseMsg(PrintMsg(MSG_NEW_BLOCK, PrintBlock(block))) == (MSG_NEW_BLOCK, Some(PrintBlock(block)))
    ensures ParseBlock(PrintBlock(block)) == Ok(block)
  {
    hide ParseBlock, ParseMsg, Neutral;
    WholeBlock(block);
    var body := Fields(BlockFields(block, PrintTxs(block.txs)));
    BlockBodyIsNeutral(block);
    BodyIsText(body);
    MsgRoundTrip(MSG_NEW_BLOCK, body);
  }

  /** And so does a whole chain of up to 10000 blocks. */
  lemma ChainMessageRoundTrip(chain: seq<Block>)
    requires WellFormedChain(chain)
    requires forall i | 0 <= i < |chain| :: TransportableBlock(chain[i])
    ensures '\0' !in PrintChain(chain) && '\0' !in PrintMsg(MSG_CHAIN_RESPONSE, PrintChain(chain))
    ensures ParseMsg(PrintMsg(MSG_CHAIN_RESPONSE, PrintChain(chain))) == (MSG_CHAIN_RESPONSE, Some(PrintChain(chain)))
    ensures ParseChain(PrintChain(chain)) == Ok(chain)
  {
    hide ParseChain, ParseMsg, Neutral;
    ChainRoundTrip(chain, "");
    assert PrintChain(chain) + "" == PrintChain(chain);
    var body := Fields(ChainFields(chain));
    ChainBodyIsNeutral(chain);
    BodyIsText(body);
    MsgRoundTrip(MSG_CHAIN_RESPONSE, body);
  }
}
