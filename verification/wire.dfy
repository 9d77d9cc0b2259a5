/**
 The messages of the network and their text on the wire: what a list of
 messages becomes on one end of a connection is that list again on the other.
 */
module Wire {
  import opened Machine
  import opened LibC
  import opened Decimal
  import opened Records
  import opened Json
  import opened JsonLaws
  import opened Scanners
  import opened ScanLaws
  import opened Protocol
  import opened BraceLaws
  import opened Codec
  import opened RoundTrip
  import opened Messages
  import opened Framing

  datatype Msg =
    | NewBlock(block: Block)
    | NewTx(tx: Tx)
    | RequestChain
    | ChainResponse(chain: seq<Block>)
    | Ping
    | Pong

  /** What the reading loop makes of one line. */
  type Heard = Parsed<Msg>

  function Kind(m: Msg): nat {
    match m
    case NewBlock(_) => MSG_NEW_BLOCK
    case NewTx(_) => MSG_NEW_TX
    case RequestChain => MSG_REQUEST_CHAIN
    case ChainResponse(_) => MSG_CHAIN_RESPONSE
    case Ping => MSG_PING
    case Pong => MSG_PONG
  }

  function Payload(m: Msg): string {
    match m
    case NewBlock(block) => PrintBlock(block)
    case NewTx(tx) => PrintTx(tx)
    case ChainResponse(chain) => PrintChain(chain)
    case _ => "{}"
  }

  /** The line a node sends for a message, without its newline. */
  function Encode(m: Msg): string { PrintMsg(Kind(m), Payload(m)) }

  /** The message `handle_message` acts on. Rejected: it does nothing. */
  function Decode(raw: CString): Heard {
    var (kind, payload) := ParseMsg(raw);
    if kind == MSG_NEW_BLOCK then
      if payload.None? then Rejected
      else
        match ParseBlock(payload.value)
        case Ok(block) => Ok(NewBlock(block))
        case Rejected => Rejected
        case OutsideModel => OutsideModel
    else if kind == MSG_NEW_TX then
      if payload.Some? && ParseTx(payload.value).1 then Ok(NewTx(ParseTx(payload.value).0)) else Rejected
    else if kind == MSG_REQUEST_CHAIN then Ok(RequestChain)
    else if kind == MSG_CHAIN_RESPONSE then
      if payload.None? then Rejected
      else
        match ParseChain(payload.value)
        case Ok(chain) => Ok(ChainResponse(chain))
        case Rejected => Rejected
        case OutsideModel => OutsideModel
    else if kind == MSG_PING then Ok(Ping)
    else if kind == MSG_PONG then Ok(Pong)
    else Rejected
  }

  // One line each

  predicate OneLine(s: string) { '\n' !in s }

  lemma {:induction false} EscapeOneLine(s: string)
    requires OneLine(s)
    ensures OneLine(Escape(s))
  {
    if s != "" {
      assert s[0] in s;
      EscapeOneLine(s[1..]);
    }
  }

  lemma NumeralOneLine(n: nat)
    ensures OneLine(Numeral(n))
  {
    assert forall i | 0 <= i < |Numeral(n)| :: IsDigit(Numeral(n)[i]);
  }

  lemma SignedOneLine(n: int)
    ensures OneLine(SignedNumeral(n))
  {
    NumeralOneLine(if n < 0 then 0 - n else n);
  }

  lemma {:induction false} FieldsOneLine(fields: seq<Field>)
    requires forall f | f in fields :: IsKey(f.0)
    requires forall i | 0 <= i < |fields| :: OneLine(fields[i].1)
    ensures OneLine(Fields(fields)) && OneLine(Object(fields))
  {
    if fields != [] {
      FieldsOneLine(fields[1..]);
      assert fields[0] in fields;
      assert forall c | c in fields[0].0 :: IsKeyChar(c);
      assert OneLine(FieldText(fields[0]));
    }
  }

  lemma {:induction false} JoinOneLine(items: seq<string>)
    requires forall i | 0 <= i < |items| :: OneLine(items[i])
    ensures OneLine(Join(items))
  {
    if |items| > 1 { JoinOneLine(items[1..]); }
  }

  predicate OneLineTx(tx: Tx) {
    OneLine(tx.sender) && OneLine(tx.receiver) && OneLine(tx.signature) && OneLine(tx.txHash)
  }

  predicate OneLineBlock(block: Block) {
    && OneLine(block.prevHash) && OneLine(block.hash)
    && forall i | 0 <= i < |block.txs| :: OneLineTx(block.txs[i])
  }

  lemma PrintTxOneLine(tx: Tx)
    requires OneLineTx(tx)
    ensures OneLine(PrintTx(tx))
  {
    hide IsKey;
    var s, r := Escape(tx.sender), Escape(tx.receiver);
    TxKeys(s, r, tx);
    EscapeOneLine(tx.sender);
    EscapeOneLine(tx.receiver);
    NumeralOneLine(tx.amount);
    NumeralOneLine(tx.fee);
    FieldsOneLine(TxFields(s, r, tx));
  }

  lemma PrintTxsOneLine(txs: TxList)
    requires forall i | 0 <= i < |txs| :: OneLineTx(txs[i])
    ensures OneLine(PrintTxs(txs))
  {
    hide OneLineTx;
    forall i | 0 <= i < |txs| ensures OneLine(TxTexts(txs)[i]) { PrintTxOneLine(txs[i]); }
    JoinOneLine(TxTexts(txs));
  }

  lemma PrintBlockOneLine(block: Block)
    requires OneLineBlock(block)
    ensures OneLine(PrintBlock(block))
  {
    hide IsKey, PrintTxs;
    var txs := PrintTxs(block.txs);
    BlockKeys(block, txs);
    NumeralOneLine(block.index);
    SignedOneLine(block.timestamp);
    NumeralOneLine(block.nonce);
    NumeralOneLine(|block.txs|);
    PrintTxsOneLine(block.txs);
    FieldsOneLine(BlockFields(block, txs));
  }

  lemma PrintChainOneLine(chain: seq<Block>)
    requires forall i | 0 <= i < |chain| :: OneLineBlock(chain[i])
    ensures OneLine(PrintChain(chain))
  {
    hide IsKey, OneLineBlock;
    forall i | 0 <= i < |chain| ensures OneLine(BlockTexts(chain)[i]) { PrintBlockOneLine(chain[i]); }
    JoinOneLine(BlockTexts(chain));
    NumeralOneLine(|chain|);
    ChainKeys();
    FieldsOneLine(ChainFields(chain));
  }

  lemma MsgKeys()
    ensures IsKey("type") && IsKey("payload")
  {
  }

  lemma EncodeOneLine(m: Msg)
    requires OneLine(Payload(m))
    ensures OneLine(Encode(m))
  {
    hide IsKey;
    NumeralOneLine(Kind(m));
    MsgKeys();
    FieldsOneLine(MsgFields(Kind(m), Payload(m)));
  }

  // What can be sent

  predicate SendableTx(tx: Tx) { Transportable(tx) && OneLineTx(tx) }

  predicate SendableBlock(block: Block) {
    WellFormedBlock(block) && TransportableBlock(block) && OneLineBlock(block)
  }

  predicate SendableChain(chain: seq<Block>) {
    1 <= |chain| <= MAX_BLOCKS && forall i | 0 <= i < |chain| :: SendableBlock(chain[i])
  }

  /** What a message carries is well formed. */
  predicate Portable(m: Msg) {
    match m
    case NewBlock(block) => SendableBlock(block)
    case NewTx(tx) => SendableTx(tx)
    case ChainResponse(chain) => SendableChain(chain)
    case _ => true
  }

  /** Well formed, and with its newline within the reader's buffer. */
  predicate Sendable(m: Msg) { |Encode(m)| <= MAX_MSG_SIZE - 2 && Portable(m) }

  lemma SendableFits(m: Msg)
    requires Sendable(m)
    ensures FitsLine(Encode(m))
  {
    hide SendableBlock, OneLineTx, OneLineBlock, Encode;
    match m {
      case NewBlock(block) => SendableParts(block); PrintBlockOneLine(block);
      case NewTx(tx) => PrintTxOneLine(tx);
      case ChainResponse(chain) =>
        forall i | 0 <= i < |chain| ensures OneLineBlock(chain[i]) { SendableParts(chain[i]); }
        PrintChainOneLine(chain);
      case _ =>
    }
    EncodeOneLine(m);
  }

  lemma SendableParts(block: Block)
    requires SendableBlock(block)
    ensures WellFormedBlock(block) && TransportableBlock(block) && OneLineBlock(block)
  {
  }

  /** One message: what is decoded is what was encoded. */
  lemma DecodesBack(m: Msg)
    requires Sendable(m)
    ensures '\0' !in Encode(m) && Decode(Encode(m)) == Ok(m)
  {
    hide ParseMsg, ParseBlock, ParseTx, ParseChain, PrintMsg, SendableBlock, WellFormedBlock, TransportableBlock;
    match m {
      case NewBlock(block) => SendableParts(block); BlockMessageRoundTrip(block);
      case NewTx(tx) => TxMessageRoundTrip(tx);
      case ChainResponse(chain) =>
        forall i | 0 <= i < |chain| ensures WellFormedBlock(chain[i]) && TransportableBlock(chain[i]) {
          SendableParts(chain[i]);
        }
        ChainMessageRoundTrip(chain);
      case _ => EmptyMessageRoundTrip(Kind(m));
    }
  }

  lemma EmptyMessageRoundTrip(kind: nat)
    requires kind <= 6
    ensures '\0' !in PrintMsg(kind, "{}") && ParseMsg(PrintMsg(kind, "{}")) == (kind, Some("{}"))
  {
    hide ParseMsg, PrintMsg;
    QuietIsNeutral("");
    MsgRoundTrip(kind, "");
    assert "{" + "" + "}" == "{}";
  }

  function Lines(msgs: seq<Msg>): (r: seq<string>)
    ensures |r| == |msgs|
  {
    if msgs == [] then [] else [Encode(msgs[0])] + Lines(msgs[1..])
  }

  function DecodeAll(lines: seq<CString>): seq<Heard> {
    if lines == [] then [] else [Decode(lines[0])] + DecodeAll(lines[1..])
  }

  function Delivered(msgs: seq<Msg>): seq<Heard> {
    if msgs == [] then [] else [Ok(msgs[0])] + Delivered(msgs[1..])
  }

  /**
   End to end. Messages are printed, framed and sent as one stream of bytes;
   the peer reads byte by byte, parses each line, and acts on the same
   messages in the same order, with nothing left over.
   */
  lemma WireRoundTrip(msgs: seq<Msg>)
    requires forall m | m in msgs :: Sendable(m)
    ensures Frames(Stream(Lines(msgs))) == Lines(msgs)
    ensures DecodeAll(Frames(Stream(Lines(msgs)))) == Delivered(msgs)
    ensures Leftover(Stream(Lines(msgs))) == ""
  {
    hide Encode, Sendable, Decode, FitsLine;
    LinesFit(msgs);
    FramingExact(Lines(msgs));
    DecodesLines(msgs);
  }

  lemma {:induction false} LinesFit(msgs: seq<Msg>)
    requires forall m | m in msgs :: Sendable(m)
    ensures forall i | 0 <= i < |msgs| :: '\0' !in Lines(msgs)[i] && FitsLine(Lines(msgs)[i])
  {
    hide Encode, Sendable, Decode, FitsLine;
    if msgs != [] {
      assert msgs[0] in msgs && forall m | m in msgs[1..] :: m in msgs;
      DecodesBack(msgs[0]);
      SendableFits(msgs[0]);
      LinesFit(msgs[1..]);
    }
  }

  lemma {:induction false} DecodesLines(msgs: seq<Msg>)
    requires forall m | m in msgs :: Sendable(m)
    requires forall i | 0 <= i < |msgs| :: '\0' !in Lines(msgs)[i]
    ensures DecodeAll(Lines(msgs)) == Delivered(msgs)
  {
    hide Encode, Sendable, Decode;
    if msgs != [] {
      assert msgs[0] in msgs && forall m | m in msgs[1..] :: m in msgs;
      DecodesBack(msgs[0]);
      assert Lines(msgs)[1..] == Lines(msgs[1..]);
      assert forall i | 0 <= i < |msgs[1..]| :: Lines(msgs[1..])[i] == Lines(msgs)[i + 1];
      DecodesLines(msgs[1..]);
    }
  }

  /** A single transaction or block always fits the reader's buffer, and so
      does every chain of up to 171 blocks. */
  lemma ShortEnough(m: Msg)
    requires m.ChainResponse? ==> |m.chain| <= 171
    ensures |Encode(m)| <= MAX_MSG_SIZE - 2
  {
    hide PrintTx, PrintBlock, PrintChain, Numeral;
    match m {
      case NewBlock(block) => PrintBlockFits(block);
      case NewTx(tx) => PrintTxFits(tx);
      case ChainResponse(chain) => ChainLength(chain);
      case _ =>
    }
    MsgText(Kind(m), Payload(m));
    NumeralFits(Kind(m));
  }

  lemma ChainLength(chain: seq<Block>)
    requires |chain| <= MAX_BLOCKS
    ensures |PrintChain(chain)| <= 102 + 6113 * |chain|
  {
    hide PrintChain, ChainHead, Join;
    ChainHeadFits(chain);
    BlockListFits(chain);
    ChainText(chain);
  }

  /** No line fills the buffer more than 58 times, and only that of a chain fills
      it at all. */
  lemma LongestLine(m: Msg)
    requires m.ChainResponse? ==> |m.chain| <= MAX_BLOCKS
    ensures |Encode(m)| / ROOM_FOR_LINE <= 58
    ensures !m.ChainResponse? ==> |Encode(m)| / ROOM_FOR_LINE == 0
  {
    hide PrintChain, PrintTx, PrintBlock, Numeral;
    if m.ChainResponse? {
      ChainLength(m.chain);
      MsgText(Kind(m), Payload(m));
      NumeralFits(Kind(m));
    } else {
      ShortEnough(m);
    }
  }

  // What a message is on the other end

  lemma EncodeIsText(m: Msg)
    ensures '\0' !in Encode(m)
  {
    hide PrintTx, PrintBlock, PrintChain, PrintMsg;
    match m {
      case NewBlock(block) => PrintBlockFits(block);
      case NewTx(tx) => PrintTxFits(tx);
      case ChainResponse(chain) => PrintChainFits(chain);
      case _ =>
    }
    PrintMsgFits(Kind(m), Payload(m));
  }

  /** What the receiver acts on when this message is sent, one turn of the
      reading loop after the other. */
  function Reading(m: Msg): seq<Heard> { DecodeAll(Frames(Encode(m) + "\n")) }

  /** Each message is read by itself, whatever is sent before and behind it. */
  lemma {:induction false} ReadOneByOne(msgs: seq<Msg>)
    ensures DecodeAll(Frames(Stream(Lines(msgs)))) == ReadingOfEach(msgs)
  {
    hide Decode, Encode;
    StreamIsReadLineByLine(Lines(msgs));
    EachIsDecoded(msgs);
  }

  function ReadingOfEach(msgs: seq<Msg>): seq<Heard> {
    if msgs == [] then [] else Reading(msgs[0]) + ReadingOfEach(msgs[1..])
  }

  lemma {:induction false} EachIsDecoded(msgs: seq<Msg>)
    ensures DecodeAll(FramesOfEach(Lines(msgs))) == ReadingOfEach(msgs)
  {
    hide Decode, Encode;
    if msgs != [] {
      assert Lines(msgs)[1..] == Lines(msgs[1..]);
      EachIsDecoded(msgs[1..]);
      DecodeConcat(Frames(Encode(msgs[0]) + "\n"), FramesOfEach(Lines(msgs[1..])));
    }
  }

  lemma {:induction false} DecodeConcat(a: seq<CString>, b: seq<CString>)
    ensures DecodeAll(a + b) == DecodeAll(a) + DecodeAll(b)
  {
    hide Decode;
    if a == [] {
      assert a + b == b;
    } else {
      assert (a + b)[1..] == a[1..] + b;
      DecodeConcat(a[1..], b);
    }
  }

  lemma ShortReading(m: Msg)
    requires FitsLine(Encode(m))
    ensures '\0' !in Encode(m) && Reading(m) == [Decode(Encode(m))]
  {
    hide Encode, Decode;
    EncodeIsText(m);
    var line: CString := Encode(m);
    LongLineInPieces(line);
    assert Pieces(line) == [line] && [line][1..] == [];
    assert DecodeAll([line]) == [Decode(line)];
  }

  /** A well-formed message is read as it was printed, if its line is not too long. */
  lemma PortableArrives(m: Msg)
    requires Sendable(m)
    ensures Reading(m) == [Ok(m)]
  {
    hide Portable, Encode, Decode;
    SendableFits(m);
    ShortReading(m);
    DecodesBack(m);
  }

  /** All but long chains. */
  lemma ShortArrives(m: Msg)
    requires Portable(m) && (m.ChainResponse? ==> |m.chain| <= 171)
    ensures Reading(m) == [Ok(m)]
  {
    PortableArrives(m) by { ShortEnough(m); }
  }

  lemma TypeStands(m: Msg)
    ensures Encode(m) == OpenObject([("type", Numeral(Kind(m)))]) + ("," + (FieldText(("payload", Payload(m))) + "}"))
    ensures Leading([("type", Numeral(Kind(m)))], 0) && |OpenObject([("type", Numeral(Kind(m)))])| == 9
  {
    hide Payload;
    assert |"type"| == 4 && IsKey("type");
    TwoFields(("type", Numeral(Kind(m))), ("payload", Payload(m)));
  }

  lemma TwoFields(f: Field, g: Field)
    ensures Object([f, g]) == OpenObject([f]) + ("," + (FieldText(g) + "}"))
  {
    assert [f, g][1..] == [g];
    assert Fields([f, g]) == FieldText(f) + "," + FieldText(g);
    Assoc(FieldText(f), ",", FieldText(g));
    Assoc("{", FieldText(f), "," + FieldText(g));
    Assoc("{" + FieldText(f), "," + FieldText(g), "}");
    Assoc(",", FieldText(g), "}");
  }

  /** The kind of a message is never mistaken, whatever it carries, and even if
      its end is cut off. */
  lemma KindArrives(m: Msg, k: nat)
    requires 10 <= k <= |Encode(m)|
    ensures '\0' !in Encode(m)[..k]
    ensures var r := Decode(Encode(m)[..k]); r.Ok? ==> Kind(r.value) == Kind(m)
  {
    hide ValueOf, GetInt, PayloadEnd, ParseTx, ParseBlock, ParseChain, Payload, Encode, FieldText, OpenObject;
    EncodeIsText(m);
    TypeStands(m);
    NumeralIsSafe(Kind(m));
    var f := [("type", Numeral(Kind(m)))];
    var rest := ("," + (FieldText(("payload", Payload(m))) + "}"))[..k - |OpenObject(f)|];
    assert Encode(m)[..k] == OpenObject(f) + rest;
    assert rest[0] == ',';
    OpenInt(f, 0, rest, Kind(m));
  }

  lemma {:induction false} ParsesAtMost(s: CString, n: nat)
    ensures ParseBlocks(s, n).Ok? ==> |ParseBlocks(s, n).value| <= n
    decreases n
  {
    hide ParseBlock, NextObject;
    if n > 0 {
      var next := NextObject(s);
      if next.Some? { ParsesAtMost(next.value.1, n - 1); }
    }
  }

  /** No chain is received that does not fit the array. */
  lemma ChainArrivesWithin(raw: CString)
    ensures Decode(raw).Ok? && Decode(raw).value.ChainResponse? ==> |Decode(raw).value.chain| <= MAX_BLOCKS
  {
    hide ParseMsg, ParseTx, ParseBlock, ParseChain;
    var payload := ParseMsg(raw).1;
    if payload.Some? { ChainParsesWithin(payload.value); }
  }

  lemma ReadingIsWithin(m: Msg)
    ensures forall l | l in Reading(m) && l.Ok? && l.value.ChainResponse? :: |l.value.chain| <= MAX_BLOCKS
  {
    hide Encode, Frames;
    AllWithin(Frames(Encode(m) + "\n"));
  }

  lemma {:induction false} AllWithin(lines: seq<CString>)
    ensures forall l | l in DecodeAll(lines) && l.Ok? && l.value.ChainResponse? :: |l.value.chain| <= MAX_BLOCKS
  {
    hide Decode;
    if lines != [] {
      ChainArrivesWithin(lines[0]);
      AllWithin(lines[1..]);
    }
  }

  lemma ChainParsesWithin(json: CString)
    ensures ParseChain(json).Ok? ==> |ParseChain(json).value| <= MAX_BLOCKS
  {
    hide ParseBlocks, GetInt, ValueOf;
    ValueIsText(json, "blocks");
    var length, v := GetInt(json, "length"), ValueOf(json, "blocks");
    if length.Some? && 0 < length.value <= MAX_BLOCKS && v.Some? && v.value != "" {
      ParsesAtMost(v.value[1..], length.value);
    }
  }
}
