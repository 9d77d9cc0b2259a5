/** Serializers and deserializers of the wire format: `src/protocol.c`. */
module Protocol {
  import opened Machine
  import opened Decimal
  import opened LibC
  import opened Records
  import opened Json
  import opened JsonLaws
  import opened Scanners

  // What is printed

  function TxFields(sender: string, receiver: string, tx: Tx): seq<Field> {
    [("sender", Quote(sender)), ("receiver", Quote(receiver)),
     ("amount", Numeral(tx.amount)), ("fee", Numeral(tx.fee)),
     ("signature", Quote(tx.signature)), ("tx_hash", Quote(tx.txHash))]
  }

  function PrintTx(tx: Tx): string {
    Object(TxFields(Escape(tx.sender), Escape(tx.receiver), tx))
  }

  /** Items with commas between them. */
  function Join(items: seq<string>): string {
    if items == [] then ""
    else if |items| == 1 then items[0]
    else items[0] + "," + Join(items[1..])
  }

  function TxTexts(txs: seq<Tx>): (r: seq<string>)
    ensures |r| == |txs|
  {
    seq(|txs|, i requires 0 <= i < |txs| => PrintTx(txs[i]))
  }

  function BlockFields(block: Block, txs: string): seq<Field> {
    [("index", Numeral(block.index)), ("timestamp", SignedNumeral(block.timestamp)),
     ("prev_hash", Quote(block.prevHash)), ("nonce", Numeral(block.nonce)),
     ("hash", Quote(block.hash)), ("tx_count", Numeral(|block.txs|)), ("transactions", txs)]
  }

  function PrintTxs(txs: seq<Tx>): string { "[" + Join(TxTexts(txs)) + "]" }

  function PrintBlock(block: Block): string { Object(BlockFields(block, PrintTxs(block.txs))) }

  function BlockTexts(chain: seq<Block>): (r: seq<string>)
    ensures |r| == |chain|
  {
    seq(|chain|, i requires 0 <= i < |chain| => PrintBlock(chain[i]))
  }

  function ChainFields(chain: seq<Block>): seq<Field> {
    [("length", Numeral(|chain|)), ("blocks", "[" + Join(BlockTexts(chain)) + "]")]
  }

  function PrintChain(chain: seq<Block>): string { Object(ChainFields(chain)) }

  const MSG_NEW_BLOCK: nat := 0
  const MSG_NEW_TX: nat := 1
  const MSG_REQUEST_CHAIN: nat := 2
  const MSG_CHAIN_RESPONSE: nat := 3
  const MSG_PING: nat := 5
  const MSG_PONG: nat := 6

  function MsgFields(kind: nat, payload: string): seq<Field> {
    [("type", Numeral(kind)), ("payload", payload)]
  }

  /** A message without its newline. */
  function PrintMsg(kind: nat, payload: string): string { Object(MsgFields(kind, payload)) }

  // What is read

  /** OutsideModel: a `tx_count` above the array, which the C code would index with. */
  datatype Parsed<+T> = Ok(value: T) | Rejected | OutsideModel

  function Text64At(json: CString, key: string): Option<Text64> {
    GetStringIsText(json, key, 65);
    GetString(json, key, 65)
  }

  function Text128At(json: CString, key: string): Option<Text128> {
    GetStringIsText(json, key, 129);
    GetString(json, key, 129)
  }

  function OrElse<T>(o: Option<T>, default: T): T {
    if o.Some? then o.value else default
  }

  /** The fields read before the first that is missing, and whether none was.
      The fee, the signature and the hash may be missing. */
  function ParseTx(json: CString): (Tx, bool) {
    var sender := Text64At(json, "sender");
    if sender.None? then (ZERO_TX, false) else
    var receiver := Text64At(json, "receiver");
    if receiver.None? then (ZERO_TX.(sender := sender.value), false) else
    var amount := GetU64(json, "amount");
    if amount.None? then (ZERO_TX.(sender := sender.value, receiver := receiver.value), false) else
    (Tx(sender.value, receiver.value, amount.value, OrElse(GetU64(json, "fee"), 0),
        OrElse(Text128At(json, "signature"), ""), OrElse(Text64At(json, "tx_hash"), "")), true)
  }

  /** The next object as the string-blind scan cuts it out, and what is left. */
  function NextObject(s: CString): Option<(CString, CString)> {
    match Strchr(s, '{')
    case None => None
    case Some(k) =>
      var rest := s[k..];
      var end := BraceEnd(rest, 0);
      Some((rest[..end], rest[end..]))
  }

  /** Up to `n` transactions, cut out one behind the other. */
  function ParseTxs(s: CString, n: nat): (txs: seq<Tx>)
    ensures |txs| <= n
    decreases n
  {
    if n == 0 then []
    else
      match NextObject(s)
      case None => []
      case Some(next) => [ParseTx(next.0).0] + ParseTxs(next.1, n - 1)
  }

  /** The used part of `transactions[]`: places that nothing was read for are zero. */
  function Padded(txs: seq<Tx>, n: nat): seq<Tx>
    requires |txs| <= n
  {
    txs + seq(n - |txs|, _ => ZERO_TX)
  }

  /** How many turns the loop `i < tx_count && i < MAX_TX_PER_BLOCK` takes. */
  function Turns(count: I32): (n: nat)
    ensures n <= MAX_TX_PER_BLOCK
  {
    if count < 0 then 0 else if count > MAX_TX_PER_BLOCK then MAX_TX_PER_BLOCK else count
  }

  function ParseTransactions(json: CString, count: I32): TxList {
    var n := Turns(count);
    var v := ValueOf(json, "transactions");
    ValueIsText(json, "transactions");
    if v.Some? && v.value != "" && v.value[0] == '[' then Padded(ParseTxs(v.value[1..], n), n)
    else Padded([], n)
  }

  function ParseBlock(json: CString): Parsed<Block> {
    var index := GetU64(json, "index");
    if index.None? then Rejected else
    var time := GetU64(json, "timestamp");
    if time.None? then Rejected else
    var prevHash := Text64At(json, "prev_hash");
    if prevHash.None? then Rejected else
    var nonce := GetU64(json, "nonce");
    if nonce.None? then Rejected else
    var hash := Text64At(json, "hash");
    if hash.None? then Rejected else
    var count := GetInt(json, "tx_count");
    if count.None? then Rejected else
    if count.value > MAX_TX_PER_BLOCK then OutsideModel else
    Ok(Block(ToU32(index.value), ToI64(time.value), ParseTransactions(json, count.value),
             prevHash.value, nonce.value, hash.value))
  }

  /** A block and the blocks read behind it, or what became of them. */
  function PutBehind(got: seq<Block>, r: Parsed<seq<Block>>): Parsed<seq<Block>> {
    if r.Ok? then Ok(got + r.value) else r
  }

  function ParseBlocks(s: CString, n: nat): Parsed<seq<Block>>
    decreases n
  {
    if n == 0 then Ok([])
    else
      match NextObject(s)
      case None => Ok([])
      case Some(next) =>
        match ParseBlock(next.0)
        case Rejected => Rejected
        case OutsideModel => OutsideModel
        case Ok(block) => PutBehind([block], ParseBlocks(next.1, n - 1))
  }

  function ParseChain(json: CString): Parsed<seq<Block>> {
    var length := GetInt(json, "length");
    if length.None? || length.value <= 0 || length.value > MAX_BLOCKS then Rejected else
    var v := ValueOf(json, "blocks");
    ValueIsText(json, "blocks");
    if v.None? || v.value == "" || v.value[0] != '[' then Rejected
    else ParseBlocks(v.value[1..], length.value)
  }

  /** The type, or -1, and the payload, or None for NULL. */
  function ParseMsg(json: CString): (int, Option<CString>) {
    var kind := GetInt(json, "type");
    if kind.None? then (-1, None)
    else
      ValueIsText(json, "payload");
      match ValueOf(json, "payload")
      case None => (kind.value, None)
      case Some(v) => (kind.value, Some(if v == "" then "" else v[..PayloadEnd(v, SCAN_START)]))
  }
}
