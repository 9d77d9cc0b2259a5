/**
 The serializing loops of `src/protocol.c`, which print into fixed buffers, each
 proved against what `Protocol` says is printed. No buffer is ever too small.
 */
module Codec {
  import opened Machine
  import opened Decimal
  import opened LibC
  import opened Records
  import opened Json
  import opened JsonLaws
  import opened Protocol

  // Texts without NUL, and their lengths

  lemma NumeralFits(n: U64)
    ensures '\0' !in Numeral(n) && |Numeral(n)| <= 20
  {
    WidthU64(n);
  }

  lemma SignedNumeralFits(n: I64)
    ensures '\0' !in SignedNumeral(n) && |SignedNumeral(n)| <= 21
  {
    WidthI64(n);
  }

  /** Printed fields are no longer than their parts, four characters more for
      each, and hold no NUL when the parts hold none. */
  lemma {:induction false} FirstFieldFits(fields: seq<Field>, rest: nat)
    requires fields != [] && '\0' !in fields[0].0 && '\0' !in fields[0].1
    requires '\0' !in Fields(fields[1..]) && |Fields(fields[1..])| <= rest
    ensures '\0' !in Fields(fields)
    ensures |Fields(fields)| <= |fields[0].0| + |fields[0].1| + 4 + rest
  {
  }

  lemma PrintTxFits(tx: Tx)
    ensures '\0' !in PrintTx(tx) && |PrintTx(tx)| <= 570
  {
    EscapeIsText(tx.sender);
    EscapeIsText(tx.receiver);
    TxFieldsFit(Escape(tx.sender), Escape(tx.receiver), tx);
  }

  lemma TxFieldsFit(sender: string, receiver: string, tx: Tx)
    requires '\0' !in sender && '\0' !in receiver && |sender| <= 128 && |receiver| <= 128
    ensures '\0' !in Object(TxFields(sender, receiver, tx)) && |Object(TxFields(sender, receiver, tx))| <= 570
  {
    NumeralFits(tx.amount);
    NumeralFits(tx.fee);
    var f := TxFields(sender, receiver, tx);
    assert Fields(f[6..]) == "";
    SuffixFits(f, 5, 0, 77);
    SuffixFits(f, 4, 77, 220);
    SuffixFits(f, 3, 220, 247);
    SuffixFits(f, 2, 247, 277);
    SuffixFits(f, 1, 277, 419);
    SuffixFits(f, 0, 419, 559);
    assert f[0..] == f;
  }

  lemma SuffixFits(fields: seq<Field>, i: nat, rest: nat, all: nat)
    requires i < |fields| && '\0' !in fields[i].0 && '\0' !in fields[i].1
    requires '\0' !in Fields(fields[i + 1..]) && |Fields(fields[i + 1..])| <= rest
    requires |fields[i].0| + |fields[i].1| + 4 + rest <= all
    ensures '\0' !in Fields(fields[i..]) && |Fields(fields[i..])| <= all
  {
    assert fields[i..][1..] == fields[i + 1..];
    FirstFieldFits(fields[i..], rest);
  }

  lemma BlockFieldsFit(block: Block, txs: string)
    requires '\0' !in txs
    ensures '\0' !in Object(BlockFields(block, txs)) && |Object(BlockFields(block, txs))| <= |txs| + 400
  {
    hide Fields, Numeral, SignedNumeral;
    NumeralFits(block.index);
    SignedNumeralFits(block.timestamp);
    var f, n := BlockFields(block, txs), |txs|;
    LastBlockFieldsFit(block, txs);
    SuffixFits(f, 2, n + 151, n + 230);
    SuffixFits(f, 1, n + 230, n + 264);
    SuffixFits(f, 0, n + 264, n + 293);
    assert f[0..] == f;
  }

  lemma LastBlockFieldsFit(block: Block, txs: string)
    requires '\0' !in txs
    ensures '\0' !in Fields(BlockFields(block, txs)[3..])
    ensures |Fields(BlockFields(block, txs)[3..])| <= |txs| + 151
  {
    NumeralFits(block.nonce);
    NumeralFits(|block.txs|);
    var f, n := BlockFields(block, txs), |txs|;
    assert Fields(f[7..]) == "";
    SuffixFits(f, 6, 0, n + 16);
    SuffixFits(f, 5, n + 16, n + 48);
    SuffixFits(f, 4, n + 48, n + 122);
    SuffixFits(f, 3, n + 122, n + 151);
  }

  lemma {:induction false} JoinFits(items: seq<string>, each: nat)
    requires forall i | 0 <= i < |items| :: '\0' !in items[i] && |items[i]| <= each
    ensures '\0' !in Join(items) && |Join(items)| <= |items| * (each + 1)
  {
    if items != [] {
      JoinFits(items[1..], each);
      assert |items| * (each + 1) == (|items| - 1) * (each + 1) + each + 1;
    }
  }

  lemma PrintTxsFits(txs: TxList)
    ensures '\0' !in PrintTxs(txs) && |PrintTxs(txs)| <= 5712
  {
    forall i | 0 <= i < |txs| ensures '\0' !in TxTexts(txs)[i] && |TxTexts(txs)[i]| <= 570 {
      PrintTxFits(txs[i]);
    }
    JoinFits(TxTexts(txs), 570);
  }

  lemma PrintBlockFits(block: Block)
    ensures '\0' !in PrintBlock(block) && |PrintBlock(block)| <= 6112
  {
    PrintTxsFits(block.txs);
    BlockFieldsFit(block, PrintTxs(block.txs));
  }

  lemma BlockListFits(chain: seq<Block>)
    ensures '\0' !in Join(BlockTexts(chain)) && |Join(BlockTexts(chain))| <= 6113 * |chain|
  {
    forall i | 0 <= i < |chain| ensures '\0' !in BlockTexts(chain)[i] && |BlockTexts(chain)[i]| <= 6112 {
      PrintBlockFits(chain[i]);
    }
    JoinFits(BlockTexts(chain), 6112);
  }

  lemma {:induction false} JoinSnoc(items: seq<string>, item: string)
    ensures Join(items + [item]) == Join(items) + (if items == [] then "" else ",") + item
  {
    if |items| > 1 {
      JoinSnoc(items[1..], item);
      assert (items + [item])[1..] == items[1..] + [item];
    } else if |items| == 1 {
      assert (items + [item])[1..] == [item];
    }
  }

  // Serializers

  /** `json_escape` into a buffer of twice the length of an address field. */
  method EscapeAddress(addr: Text64) returns (text: CString)
    ensures text == Escape(addr)
  {
    var buf := new char[130];
    TakesAll(addr, 128);
    JsonEscape(addr, buf);
    TextInBuffer(buf, Escape(addr));
    text := TextOf(buf[..]);
  }

  method SerializeTx(tx: Tx) returns (buf: array<char>)
    ensures fresh(buf) && buf.Length == 1024
    ensures '\0' !in PrintTx(tx) && Holds(buf, PrintTx(tx))
  {
    buf := new char[1024];
    var senderEsc := EscapeAddress(tx.sender);
    var receiverEsc := EscapeAddress(tx.receiver);
    PrintTxFits(tx);
    var text: CString := Object(TxFields(senderEsc, receiverEsc, tx));
    var n := StartText(buf, text);
  }

  /** The items printed before turn `i` of a loop. */
  function TxsSoFar(txs: seq<Tx>, i: nat): string
    requires i <= |txs|
  {
    Join(TxTexts(txs[..i]))
  }

  function Comma(i: nat): string { if i > 0 then "," else "" }

  lemma NextTx(txs: TxList, i: nat, head: string)
    requires i < |txs|
    ensures head + TxsSoFar(txs, i + 1) == head + TxsSoFar(txs, i) + Comma(i) + PrintTx(txs[i])
    ensures '\0' !in TxsSoFar(txs, i) && |TxsSoFar(txs, i)| <= 571 * i
  {
    assert TxTexts(txs[..i + 1]) == TxTexts(txs[..i]) + [PrintTx(txs[i])];
    JoinSnoc(TxTexts(txs[..i]), PrintTx(txs[i]));
    forall j | 0 <= j < i ensures '\0' !in TxTexts(txs[..i])[j] && |TxTexts(txs[..i])[j]| <= 570 {
      PrintTxFits(txs[j]);
    }
    JoinFits(TxTexts(txs[..i]), 570);
    Assoc(head, TxsSoFar(txs, i), Comma(i));
    Assoc(head, TxsSoFar(txs, i) + Comma(i), PrintTx(txs[i]));
  }

  /** The array of transactions, item by item with a running offset. */
  method SerializeTxs(txs: TxList) returns (buf: array<char>)
    ensures fresh(buf) && '\0' !in PrintTxs(txs) && Holds(buf, PrintTxs(txs))
  {
    buf := new char[8192];
    var offset := StartText(buf, "[");
    ghost var held: CString := "[";
    for i := 0 to |txs|
      invariant held == "[" + TxsSoFar(txs, i)
      invariant Holds(buf, held) && offset == |held|
    {
      NextTx(txs, i, "[");
      var item := TxText(txs[i]);
      offset, held := AppendItem(buf, offset, i > 0, item, held);
    }
    assert txs[..|txs|] == txs;
    PrintTxsFits(txs);
    var n := Append(buf, offset, "]", held);
  }

  method TxText(tx: Tx) returns (text: CString)
    ensures text == PrintTx(tx) && |text| <= 570
  {
    PrintTxFits(tx);
    var buf := SerializeTx(tx);
    TextInBuffer(buf, PrintTx(tx));
    text := TextOf(buf[..]);
  }

  method StartText(buf: array<char>, text: CString) returns (n: nat)
    requires |text| < buf.Length
    modifies buf
    ensures n == |text| && Holds(buf, text)
  {
    n := Snprintf(buf, 0, text);
    assert buf[..|text|] == buf[0..|text|];
  }

  /** A comma first, but not before the first item. Returns the new offset. */
  method AppendItem(buf: array<char>, at: nat, comma: bool, item: CString, ghost held: CString)
    returns (offset: nat, ghost now: CString)
    requires Holds(buf, held) && |held| == at && at + |item| + 1 < buf.Length
    modifies buf
    ensures now == held + (if comma then "," else "") + item
    ensures Holds(buf, now) && offset == |now|
  {
    offset := at;
    now := held;
    if comma {
      var n := Append(buf, offset, ",", now);
      now := now + ",";
      offset := offset + n;
    }
    assert now == held + (if comma then "," else "");
    var n := Append(buf, offset, item, now);
    now := now + item;
    offset := offset + n;
  }

  method SerializeBlock(block: Block) returns (buf: array<char>)
    ensures fresh(buf) && buf.Length == 16384
    ensures '\0' !in PrintBlock(block) && Holds(buf, PrintBlock(block))
  {
    var txs := SerializeTxs(block.txs);
    TextInBuffer(txs, PrintTxs(block.txs));
    PrintBlockFits(block);
    buf := new char[16384];
    var text: CString := Object(BlockFields(block, TextOf(txs[..])));
    var n := StartText(buf, text);
  }

  function BlocksSoFar(chain: seq<Block>, i: nat): string
    requires i <= |chain|
  {
    Join(BlockTexts(chain[..i]))
  }

  lemma NextBlock(chain: seq<Block>, i: nat, head: string)
    requires i < |chain|
    ensures head + BlocksSoFar(chain, i + 1) == head + BlocksSoFar(chain, i) + Comma(i) + PrintBlock(chain[i])
    ensures |BlocksSoFar(chain, i)| <= 6113 * i
  {
    assert BlockTexts(chain[..i + 1]) == BlockTexts(chain[..i]) + [PrintBlock(chain[i])];
    JoinSnoc(BlockTexts(chain[..i]), PrintBlock(chain[i]));
    BlockListFits(chain[..i]);
    Assoc(head, BlocksSoFar(chain, i), Comma(i));
    Assoc(head, BlocksSoFar(chain, i) + Comma(i), PrintBlock(chain[i]));
  }

  /** 16384 characters for each block and 256 more. */
  method SerializeChain(chain: seq<Block>) returns (buf: array<char>)
    requires |chain| <= MAX_BLOCKS
    ensures fresh(buf) && '\0' !in PrintChain(chain) && Holds(buf, PrintChain(chain))
  {
    buf := new char[|chain| * 16384 + 256];
    hide ChainHead;
    ChainHeadFits(chain);
    var head: CString := ChainHead(chain);
    var offset := StartText(buf, head);
    ghost var held;
    offset, held := AppendBlocks(buf, offset, chain, head);
    var n := Append(buf, offset, "]}", held);
    ChainText(chain);
  }

  /** The loop of `protocol_serialize_chain`. */
  method AppendBlocks(buf: array<char>, start: nat, chain: seq<Block>, ghost head: CString)
    returns (offset: nat, ghost held: CString)
    requires buf.Length == |chain| * 16384 + 256
    requires Holds(buf, head) && |head| == start <= 100
    modifies buf
    ensures held == head + Join(BlockTexts(chain))
    ensures Holds(buf, held) && offset == |held| <= 100 + 6113 * |chain|
  {
    offset, held := start, head;
    for i := 0 to |chain|
      invariant held == head + BlocksSoFar(chain, i)
      invariant Holds(buf, held) && offset == |held|
    {
      NextBlock(chain, i, head);
      var item := BlockText(chain[i]);
      offset, held := AppendItem(buf, offset, i > 0, item, held);
    }
    assert chain[..|chain|] == chain;
    BlockListFits(chain);
  }

  method BlockText(block: Block) returns (text: CString)
    ensures text == PrintBlock(block) && |text| <= 6112
  {
    PrintBlockFits(block);
    var buf := SerializeBlock(block);
    TextInBuffer(buf, PrintBlock(block));
    text := TextOf(buf[..]);
  }

  function ChainHead(chain: seq<Block>): string {
    "{\"length\":" + Numeral(|chain|) + ",\"blocks\":["
  }

  lemma ChainHeadIsText(chain: seq<Block>)
    ensures '\0' !in ChainHead(chain)
  {
    assert forall i | 0 <= i < |Numeral(|chain|)| :: IsDigit(Numeral(|chain|)[i]);
  }

  lemma ChainHeadFits(chain: seq<Block>)
    requires |chain| <= MAX_BLOCKS
    ensures '\0' !in ChainHead(chain) && |ChainHead(chain)| <= 100
  {
    NumeralFits(|chain|);
  }

  /** The format string around two values, put together field by field. */
  lemma TwoFieldText(k: string, v: string, l: string, w: string, head: string, middle: string)
    requires head == "{\"" + k + "\":" && middle == ",\"" + l + "\":"
    ensures Object([(k, v), (l, w)]) == head + v + (middle + w) + "}"
  {
    var a: Field, b: Field := (k, v), (l, w);
    assert [a, b][1..] == [b];
    assert Fields([b]) == FieldText(b);
    assert "{" + FieldText(a) == head + v;
    assert "," + FieldText(b) == middle + w;
    Assoc("{", FieldText(a) + ",", FieldText(b));
    Assoc("{", FieldText(a), ",");
    Assoc("{" + FieldText(a), ",", FieldText(b));
  }

  lemma ChainText(chain: seq<Block>)
    ensures PrintChain(chain) == ChainHead(chain) + Join(BlockTexts(chain)) + "]}"
  {
    var n, items := Numeral(|chain|), Join(BlockTexts(chain));
    var first, second := "{\"length\":", ",\"blocks\":";
    assert "{\"" + "length" + "\":" == first;
    assert ",\"" + "blocks" + "\":" == second;
    assert second + "[" == ",\"blocks\":[";
    TwoFieldText("length", n, "blocks", "[" + items + "]", first, second);
    Brackets(first + n, second, items);
  }

  lemma Brackets(head: string, middle: string, items: string)
    ensures head + (middle + ("[" + items + "]")) + "}" == head + (middle + "[") + items + "]}"
  {
    Assoc("[", items, "]");
    Assoc(middle, "[", items + "]");
    Assoc(head, middle + "[", items + "]");
    Assoc(head + (middle + "["), items, "]");
    Assoc(head + (middle + "[") + items, "]", "}");
    assert "]" + "}" == "]}";
  }

  lemma MsgText(kind: nat, payload: string)
    ensures PrintMsg(kind, payload) + "\n" == "{\"type\":" + Numeral(kind) + ",\"payload\":" + payload + "}\n"
  {
    var n := Numeral(kind);
    assert "{\"" + "type" + "\":" == "{\"type\":";
    assert ",\"" + "payload" + "\":" == ",\"payload\":";
    TwoFieldText("type", n, "payload", payload, "{\"type\":", ",\"payload\":");
    Assoc("{\"type\":" + n, ",\"payload\":", payload);
    assert "}" + "\n" == "}\n";
  }

  /** No payload is printed as an empty object. */
  method SerializeMsg(kind: nat, payload: Option<CString>) returns (buf: array<char>)
    requires kind <= 6
    ensures fresh(buf)
    ensures var text := PrintMsg(kind, if payload.Some? then payload.value else "{}") + "\n";
            '\0' !in text && Holds(buf, text)
  {
    var p: CString := if payload.Some? then payload.value else "{}";
    buf := new char[|p| + 128];
    NumeralFits(kind);
    MsgText(kind, p);
    var text: CString := "{\"type\":" + Numeral(kind) + ",\"payload\":" + p + "}\n";
    var n := StartText(buf, text);
  }
}
