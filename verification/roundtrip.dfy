/**
 What is printed is what is read back: transactions, blocks, chains and whole
 messages, through the scanners as they are written.
 */
module RoundTrip {
  import opened Machine
  import opened Decimal
  import opened LibC
  import opened Records
  import opened Json
  import opened JsonLaws
  import opened ScanLaws
  import opened Protocol
  import opened BraceLaws
  import opened Codec

  // Transactions

  /** `signature` and `tx_hash` are printed unescaped. */
  predicate Printable(tx: Tx) { IsPlain(tx.signature) && IsPlain(tx.txHash) }

  lemma PlainIsSafe(s: string)
    requires IsPlain(s)
    ensures SafeValue(Quote(s)) && Escape(s) == s
  {
    EscapePlain(s);
    QuotedIsSafe(s);
  }

  lemma NumeralIsSafe(n: nat)
    ensures SafeValue(Numeral(n)) && Numeral(n)[0] != ' ' && Numeral(n)[0] != '\t'
  {
    assert forall i | 0 <= i < |Numeral(n)| :: IsDigit(Numeral(n)[i]);
  }

  lemma SignedIsSafe(n: int)
    ensures SafeValue(SignedNumeral(n)) && SignedNumeral(n)[0] != ' ' && SignedNumeral(n)[0] != '\t'
  {
    var m := if n < 0 then 0 - n else n;
    assert forall i | 0 <= i < |Numeral(m)| :: IsDigit(Numeral(m)[i]);
  }

  /** A field that can be read, and that hides no field behind it. */
  predicate Readable(field: Field) {
    && IsKey(field.0) && SafeValue(field.1)
    && field.1 != "" && field.1[0] != ' ' && field.1[0] != '\t'
  }

  lemma ReadableIsFindable(fields: seq<Field>, k: nat)
    requires k < |fields| && forall i | 0 <= i <= k :: Readable(fields[i])
    requires forall i | 0 <= i < k :: fields[i].0 != fields[k].0
    ensures Findable(fields, k)
  {
  }

  lemma QuotedReadable(key: string, s: string)
    requires IsKey(key)
    ensures Readable((key, Quote(Escape(s))))
  {
    QuotedIsSafe(s);
  }

  lemma PlainReadable(key: string, s: string)
    requires IsKey(key) && IsPlain(s)
    ensures Readable((key, Quote(s)))
  {
    PlainIsSafe(s);
  }

  lemma NumeralReadable(key: string, n: nat)
    requires IsKey(key)
    ensures Readable((key, Numeral(n)))
  {
    NumeralIsSafe(n);
  }

  lemma SignedReadable(key: string, n: int)
    requires IsKey(key)
    ensures Readable((key, SignedNumeral(n)))
  {
    SignedIsSafe(n);
  }

  lemma TxFieldReadable(tx: Tx, k: nat)
    requires Printable(tx) && k < 6
    ensures Readable(TxFields(Escape(tx.sender), Escape(tx.receiver), tx)[k])
  {
    hide Readable, IsKey, Quote;
    var f := TxFields(Escape(tx.sender), Escape(tx.receiver), tx);
    TxKeys(Escape(tx.sender), Escape(tx.receiver), tx);
    assert f[k] in f;
    match k
    case 0 => QuotedReadable(f[k].0, tx.sender);
    case 1 => QuotedReadable(f[k].0, tx.receiver);
    case 2 => NumeralReadable(f[k].0, tx.amount);
    case 3 => NumeralReadable(f[k].0, tx.fee);
    case 4 => PlainReadable(f[k].0, tx.signature);
    case _ => PlainReadable(f[k].0, tx.txHash);
  }

  lemma TxFindable(tx: Tx, k: nat)
    requires Printable(tx) && k < 6
    ensures Findable(TxFields(Escape(tx.sender), Escape(tx.receiver), tx), k)
  {
    hide Readable;
    var f := TxFields(Escape(tx.sender), Escape(tx.receiver), tx);
    forall i | 0 <= i <= k ensures Readable(f[i]) { TxFieldReadable(tx, i); }
    TxKeysDiffer(Escape(tx.sender), Escape(tx.receiver), tx, k);
    ReadableIsFindable(f, k);
  }

  lemma TxKeysDiffer(s: string, r: string, tx: Tx, k: nat)
    requires k < 6
    ensures forall i | 0 <= i < k :: TxFields(s, r, tx)[i].0 != TxFields(s, r, tx)[k].0
  {
    var a, b, c := "sender", "amount", "receiver";
    assert a[0] != b[0];
    assert |"sender"| == |"amount"| == 6 && |"receiver"| == 8 && |"fee"| == 3 && |"signature"| == 9 && |"tx_hash"| == 7;
  }

  lemma TxTextIsText(tx: Tx, tail: CString)
    ensures '\0' !in PrintTx(tx) + tail
  {
    PrintTxFits(tx);
  }

  /**
   Escaped values cannot fool the key search: every transaction comes back
   field by field, whatever quotes, backslashes or look-alike keys its
   addresses contain, and whatever stands behind the object.
   */
  lemma TxRoundTrip(tx: Tx, tail: CString)
    requires Printable(tx)
    ensures '\0' !in PrintTx(tx) + tail && ParseTx(PrintTx(tx) + tail) == (tx, true)
  {
    hide GetString, GetU64;
    TxTextIsText(tx, tail);
    TxAddressesRead(tx, tail);
    TxNumbersRead(tx, tail);
    TxHashesRead(tx, tail);
  }

  lemma TxNumbersRead(tx: Tx, tail: CString)
    requires Printable(tx)
    ensures '\0' !in PrintTx(tx) + tail
    ensures GetU64(PrintTx(tx) + tail, "amount") == Some(tx.amount)
    ensures GetU64(PrintTx(tx) + tail, "fee") == Some(tx.fee)
  {
    hide GetU64;
    TxTextIsText(tx, tail);
    var f := TxFields(Escape(tx.sender), Escape(tx.receiver), tx);
    TxFindable(tx, 2);
    ReadsU64(f, 2, tail, tx.amount);
    TxFindable(tx, 3);
    ReadsU64(f, 3, tail, tx.fee);
  }

  lemma TxHashesRead(tx: Tx, tail: CString)
    requires Printable(tx)
    ensures GetString(PrintTx(tx) + tail, "signature", 129) == Some(tx.signature)
    ensures GetString(PrintTx(tx) + tail, "tx_hash", 65) == Some(tx.txHash)
  {
    hide GetString;
    var f := TxFields(Escape(tx.sender), Escape(tx.receiver), tx);
    TxFindable(tx, 4);
    PlainIsSafe(tx.signature);
    ReadsString(f, 4, tail, tx.signature, 128);
    TxFindable(tx, 5);
    PlainIsSafe(tx.txHash);
    ReadsString(f, 5, tail, tx.txHash, 64);
  }

  lemma TxAddressesRead(tx: Tx, tail: CString)
    requires Printable(tx)
    ensures GetString(PrintTx(tx) + tail, "sender", 65) == Some(tx.sender)
    ensures GetString(PrintTx(tx) + tail, "receiver", 65) == Some(tx.receiver)
  {
    hide GetString;
    var f := TxFields(Escape(tx.sender), Escape(tx.receiver), tx);
    TxFindable(tx, 0);
    ReadsString(f, 0, tail, tx.sender, 64);
    TxFindable(tx, 1);
    ReadsString(f, 1, tail, tx.receiver, 64);
  }

  // Splitting lists

  /** A balanced object behind at most a comma is cut out exactly. */
  lemma CutsObject(lead: string, body: string, rest: CString)
    requires lead == "" || lead == ","
    requires Balanced(body) && rest != "" && '\0' !in body
    ensures NextObject(lead + ("{" + body + "}" + rest)) == Some(("{" + body + "}", rest))
  {
    var cut := "{" + body + "}";
    var s := lead + (cut + rest);
    ObjectSplitExact(body, rest);
    StrchrIs(lead, '{', body + "}" + rest);
    assert s == lead + ['{'] + (body + "}" + rest);
    assert s[|lead|..] == cut + rest;
    assert (cut + rest)[..|cut|] == cut && (cut + rest)[|cut|..] == rest;
  }

  predicate IsObject(item: string) {
    |item| >= 2 && item == "{" + item[1..|item| - 1] + "}" && Balanced(item[1..|item| - 1])
  }

  /** What stands behind an item of a list: a comma and the other items, or the end. */
  function Follow(items: seq<string>, rest: string): string {
    if items == [] then rest else "," + (Join(items) + rest)
  }

  lemma JoinIsFirst(items: seq<string>, rest: string)
    requires items != []
    ensures Join(items) + rest == items[0] + Follow(items[1..], rest)
  {
    if |items| > 1 {
      var more := Join(items[1..]);
      Assoc(items[0] + ",", more, rest);
      Assoc(items[0], ",", more + rest);
    } else {
      assert items[0] + rest == Join(items) + rest;
    }
  }

  lemma CutsFirst(lead: string, items: seq<string>, rest: CString)
    requires lead == "" || lead == ","
    requires items != [] && IsObject(items[0]) && rest != "" && '\0' !in Join(items)
    ensures '\0' !in items[0] && '\0' !in Follow(items[1..], rest)
    ensures NextObject(lead + (Join(items) + rest)) == Some((items[0], Follow(items[1..], rest)))
  {
    hide NextObject, Balanced;
    JoinIsFirst(items, rest);
    var next: CString := Follow(items[1..], rest);
    CutsObject(lead, items[0][1..|items[0]| - 1], next);
  }

  predicate WellFormedTx(tx: Tx) { Printable(tx) && Splittable(tx) }

  lemma PrintTxIsObject(tx: Tx)
    requires WellFormedTx(tx)
    ensures IsObject(PrintTx(tx))
  {
    var body := Fields(TxFields(Escape(tx.sender), Escape(tx.receiver), tx));
    TxBraces(tx);
    assert BraceRun(body, 1) == BraceRun(tx.sender + tx.receiver, 1);
    assert PrintTx(tx)[1..|PrintTx(tx)| - 1] == body;
  }

  lemma WholeTx(tx: Tx)
    requires WellFormedTx(tx)
    ensures '\0' !in PrintTx(tx) && ParseTx(PrintTx(tx)) == (tx, true)
  {
    hide ParseTx;
    TxRoundTrip(tx, "");
    assert PrintTx(tx) + "" == PrintTx(tx);
  }

  /** The loop over the transactions of a block reads back the printed list. */
  lemma {:induction false} ParsesTxs(lead: string, txs: TxList, rest: CString)
    requires lead == "" || lead == ","
    requires rest != "" && forall i | 0 <= i < |txs| :: WellFormedTx(txs[i])
    ensures '\0' !in Join(TxTexts(txs))
    ensures ParseTxs(lead + (Join(TxTexts(txs)) + rest), |txs|) == txs
    decreases |txs|
  {
    hide NextObject, ParseTx, WellFormedTx, IsObject, Join, PrintTx;
    PrintTxsFits(txs);
    TextsFit(txs);
    if txs != [] {
      var items := TxTexts(txs);
      PrintTxIsObject(txs[0]);
      CutsFirst(lead, items, rest);
      WholeTx(txs[0]);
      assert items[1..] == TxTexts(txs[1..]);
      if |txs| > 1 { ParsesTxs(",", txs[1..], rest); }
    }
  }

  lemma TextsFit(txs: TxList)
    ensures '\0' !in Join(TxTexts(txs))
  {
    PrintTxsFits(txs);
    assert forall c | c in Join(TxTexts(txs)) :: c in PrintTxs(txs);
  }

  // Blocks

  predicate WellFormedBlock(block: Block) {
    && PlainText(block.prevHash) && PlainText(block.hash)
    && forall i | 0 <= i < |block.txs| :: WellFormedTx(block.txs[i])
  }

  lemma BlockFieldReadable(block: Block, txs: string, k: nat)
    requires IsPlain(block.prevHash) && IsPlain(block.hash) && k < 6
    ensures Readable(BlockFields(block, txs)[k])
  {
    hide Readable, IsKey, Quote;
    var f := BlockFields(block, txs);
    BlockKeys(block, txs);
    assert f[k] in f;
    match k
    case 0 => NumeralReadable(f[k].0, block.index);
    case 1 => SignedReadable(f[k].0, block.timestamp);
    case 2 => PlainReadable(f[k].0, block.prevHash);
    case 3 => NumeralReadable(f[k].0, block.nonce);
    case 4 => PlainReadable(f[k].0, block.hash);
    case _ => NumeralReadable(f[k].0, |block.txs|);
  }

  lemma BlockKeysDiffer(block: Block, txs: string, k: nat)
    requires k < 7
    ensures forall i | 0 <= i < k :: BlockFields(block, txs)[i].0 != BlockFields(block, txs)[k].0
  {
    var a, b := "index", "nonce";
    assert a[0] != b[0];
    assert |"index"| == 5 && |"timestamp"| == |"prev_hash"| == 9 && |"hash"| == 4;
    var c, d := "timestamp", "prev_hash";
    assert c[0] != d[0];
    assert |"tx_count"| == 8 && |"transactions"| == 12;
  }

  lemma BlockFindable(block: Block, txs: string, k: nat)
    requires IsPlain(block.prevHash) && IsPlain(block.hash) && k < 6
    ensures Findable(BlockFields(block, txs), k)
  {
    hide Readable;
    var f := BlockFields(block, txs);
    forall i | 0 <= i <= k ensures Readable(f[i]) { BlockFieldReadable(block, txs, i); }
    BlockKeysDiffer(block, txs, k);
    ReadableIsFindable(f, k);
  }

  lemma TransactionsFindable(block: Block, items: string)
    requires IsPlain(block.prevHash) && IsPlain(block.hash)
    ensures Findable(BlockFields(block, "[" + items + "]"), 6)
  {
    var txs := "[" + items + "]";
    var f := BlockFields(block, txs);
    assert txs[0] == '[';
    forall i | 0 <= i < 6 ensures Readable(f[i]) { BlockFieldReadable(block, txs, i); }
    BlockKeysDiffer(block, txs, 6);
    BlockKeys(block, txs);
    assert f[6] in f;
  }

  lemma BlockNumbersRead(block: Block, txs: string, tail: CString)
    requires IsPlain(block.prevHash) && IsPlain(block.hash)
    requires '\0' !in txs
    ensures var json := Object(BlockFields(block, txs)) + tail;
            && '\0' !in json
            && GetU64(json, "index") == Some(block.index)
            && GetU64(json, "timestamp").Some? && ToI64(GetU64(json, "timestamp").value) == block.timestamp
            && GetU64(json, "nonce") == Some(block.nonce)
            && GetInt(json, "tx_count") == Some(|block.txs|)
  {
    hide GetU64, GetInt, Findable;
    BlockFieldsFit(block, txs);
    var f := BlockFields(block, txs);
    BlockFindable(block, txs, 0);
    ReadsU64(f, 0, tail, block.index);
    BlockFindable(block, txs, 1);
    ReadsSigned(f, 1, tail, block.timestamp);
    BlockFindable(block, txs, 3);
    ReadsU64(f, 3, tail, block.nonce);
    BlockFindable(block, txs, 5);
    ReadsInt(f, 5, tail, |block.txs|);
  }

  lemma BlockHashesRead(block: Block, txs: string, tail: CString)
    requires IsPlain(block.prevHash) && IsPlain(block.hash)
    requires '\0' !in txs
    ensures var json := Object(BlockFields(block, txs)) + tail;
            && '\0' !in json
            && GetString(json, "prev_hash", 65) == Some(block.prevHash)
            && GetString(json, "hash", 65) == Some(block.hash)
  {
    hide GetString, Findable;
    BlockFieldsFit(block, txs);
    var f := BlockFields(block, txs);
    BlockFindable(block, txs, 2);
    PlainIsSafe(block.prevHash);
    ReadsString(f, 2, tail, block.prevHash, 64);
    BlockFindable(block, txs, 4);
    PlainIsSafe(block.hash);
    ReadsString(f, 4, tail, block.hash, 64);
  }

  /** The list of transactions is found behind its key and read to its end. */
  lemma BlockTxsRead(block: Block, tail: CString)
    requires WellFormedBlock(block)
    ensures '\0' !in PrintBlock(block) + tail
    ensures ParseTransactions(PrintBlock(block) + tail, |block.txs|) == block.txs
  {
    hide ValueOf, ParseTxs, WellFormedTx, TxTexts, Join, Findable;
    PrintBlockFits(block);
    var items := Join(TxTexts(block.txs));
    var f := BlockFields(block, PrintTxs(block.txs));
    TransactionsFindable(block, items);
    FindsTheField(f, 6, tail);
    var behind: CString := Behind(f, 6, "}" + tail);
    Assoc("[", items + "]", behind);
    Assoc(items, "]", behind);
    var v := PrintTxs(block.txs) + behind;
    assert v[1..] == "" + (items + ("]" + behind));
    ParsesTxs("", block.txs, "]" + behind);
    assert Padded(block.txs, |block.txs|) == block.txs;
  }

  /** A block comes back whole, with all its transactions. */
  lemma BlockRoundTrip(block: Block, tail: CString)
    requires WellFormedBlock(block)
    ensures '\0' !in PrintBlock(block) + tail && ParseBlock(PrintBlock(block) + tail) == Ok(block)
  {
    hide GetString, GetU64, GetInt, ParseTransactions, ToI64, WellFormedTx, PrintTxs, Object;
    PrintBlockFits(block);
    PrintTxsFits(block.txs);
    BlockNumbersRead(block, PrintTxs(block.txs), tail);
    BlockHashesRead(block, PrintTxs(block.txs), tail);
    BlockTxsRead(block, tail);
  }
}
