/** The deserializing loops of `src/protocol.c`, proved against `Protocol`. */
module Deserializers {
  import opened Machine
  import opened LibC
  import opened Records
  import opened Json
  import opened Scanners
  import opened Protocol

  method ReadText64(json: CString, key: CString) returns (r: Option<Text64>)
    requires |key| <= 123
    ensures r == Text64At(json, key)
  {
    GetStringIsText(json, key, 65);
    r := JsonGetString(json, key, 65);
  }

  method ReadText128(json: CString, key: CString) returns (r: Option<Text128>)
    requires |key| <= 123
    ensures r == Text128At(json, key)
  {
    GetStringIsText(json, key, 129);
    r := JsonGetString(json, key, 129);
  }

  method DeserializeTx(json: CString) returns (tx: Tx, ret: int)
    ensures (tx, ret == 0) == ParseTx(json) && (ret == 0 || ret == -1)
  {
    hide Text64At, Text128At, GetU64;
    tx := ZERO_TX;
    var sender := ReadText64(json, "sender");
    if sender.None? {
      return tx, -1;
    }
    tx := tx.(sender := sender.value);
    var receiver := ReadText64(json, "receiver");
    if receiver.None? {
      return tx, -1;
    }
    tx := tx.(receiver := receiver.value);
    var amount := JsonGetU64(json, "amount");
    if amount.None? {
      return tx, -1;
    }
    tx := tx.(amount := amount.value);
    var fee := JsonGetU64(json, "fee");
    if fee.Some? {
      tx := tx.(fee := fee.value);
    }
    var signature := ReadText128(json, "signature");
    if signature.Some? {
      tx := tx.(signature := signature.value);
    }
    var txHash := ReadText64(json, "tx_hash");
    if txHash.Some? {
      tx := tx.(txHash := txHash.value);
    }
    return tx, 0;
  }

  /** Reading `n` more objects behind what was `got` gives the `whole` list. */
  ghost predicate TxsRemaining(json: CString, at: nat, n: nat, got: seq<Tx>, whole: seq<Tx>) {
    at <= |json| && whole == got + ParseTxs(json[at..], n)
  }

  method FindObject(json: CString, at: nat) returns (r: Option<(CString, nat)>)
    requires at <= |json|
    ensures match NextObject(json[at..])
            case None => r == None
            case Some(next) =>
              && r.Some? && r.value.0 == next.0
              && at < r.value.1 <= |json| && json[r.value.1..] == next.1
  {
    var brace := Strchr(json[at..], '{');
    if brace.None? {
      return None;
    }
    var from := at + brace.value;
    assert json[at..][brace.value..] == json[from..];
    var p := ScanObject(json, from);
    return Some((json[from..p], p));
  }

  lemma TxsTurn(json: CString, at: nat, n: nat, got: seq<Tx>, whole: seq<Tx>)
    requires TxsRemaining(json, at, n, got, whole)
    ensures n == 0 || NextObject(json[at..]).None? ==> got == whole
  {
  }

  /** With the next object read, one less remains behind it. */
  lemma TxsStep(json: CString, at: nat, n: nat, got: seq<Tx>, whole: seq<Tx>, behind: nat)
    requires n > 0 && TxsRemaining(json, at, n, got, whole) && NextObject(json[at..]).Some?
    requires behind <= |json| && json[behind..] == NextObject(json[at..]).value.1
    ensures TxsRemaining(json, behind, n - 1, got + [ParseTx(NextObject(json[at..]).value.0).0], whole)
  {
    hide ParseTx, NextObject;
    var next := NextObject(json[at..]);
    Regroup(got, ParseTx(next.value.0).0, ParseTxs(next.value.1, n - 1));
  }

  /** The transactions in use, in an array that starts zeroed. */
  method DeserializeTxs(json: CString, start: nat, count: nat) returns (txs: TxList)
    requires start <= |json| && count <= MAX_TX_PER_BLOCK
    ensures txs == Padded(ParseTxs(json[start..], count), count)
  {
    hide ParseTxs;
    var slots := new Tx[MAX_TX_PER_BLOCK](_ => ZERO_TX);
    ghost var got := FillSlots(json, start, count, slots);
    txs := slots[..count];
    assert txs == got + slots[|got|..count];
    assert slots[|got|..count] == seq(count - |got|, _ => ZERO_TX);
  }

  /** The loop over `transactions[]`. */
  method FillSlots(json: CString, start: nat, count: nat, slots: array<Tx>) returns (ghost got: seq<Tx>)
    requires start <= |json| && count <= slots.Length == MAX_TX_PER_BLOCK
    requires forall j | 0 <= j < slots.Length :: slots[j] == ZERO_TX
    modifies slots
    ensures got == ParseTxs(json[start..], count) && slots[..|got|] == got
    ensures forall j | |got| <= j < slots.Length :: slots[j] == ZERO_TX
  {
    hide ParseTx, NextObject, ParseTxs;
    ghost var whole := ParseTxs(json[start..], count);
    got := [];
    assert got + whole == whole;
    var at, i := start, 0;
    while i < count
      invariant i <= count && i == |got| && slots[..i] == got
      invariant TxsRemaining(json, at, count - i, got, whole)
      invariant forall j | i <= j < slots.Length :: slots[j] == ZERO_TX
    {
      TxsTurn(json, at, count - i, got, whole);
      var next := FindObject(json, at);
      if next.None? {
        break;
      }
      TxsStep(json, at, count - i, got, whole, next.value.1);
      var tx, ret := DeserializeTx(next.value.0);
      slots[i] := tx;
      got := got + [tx];
      at, i := next.value.1, i + 1;
    }
    TxsTurn(json, at, count - i, got, whole);
  }

  method DeserializeBlock(json: CString) returns (r: Parsed<Block>)
    ensures r == ParseBlock(json)
  {
    hide Text64At, GetU64, GetInt, ParseTransactions;
    var index := JsonGetU64(json, "index");
    if index.None? { return Rejected; }
    var time := JsonGetU64(json, "timestamp");
    if time.None? { return Rejected; }
    var prevHash := ReadText64(json, "prev_hash");
    if prevHash.None? { return Rejected; }
    var nonce := JsonGetU64(json, "nonce");
    if nonce.None? { return Rejected; }
    var hash := ReadText64(json, "hash");
    if hash.None? { return Rejected; }
    var count := JsonGetInt(json, "tx_count");
    if count.None? { return Rejected; }
    if count.value > MAX_TX_PER_BLOCK { return OutsideModel; }
    var txs := ReadTransactions(json, count.value);
    return Ok(Block(ToU32(index.value), ToI64(time.value), txs, prevHash.value, nonce.value, hash.value));
  }

  method ReadTransactions(json: CString, count: I32) returns (txs: TxList)
    ensures txs == ParseTransactions(json, count)
  {
    hide ParseTxs, ValueOf;
    var n := Turns(count);
    var p := JsonFindKey(json, "transactions");
    ValueIsText(json, "transactions");
    if p.Some? && p.value < |json| && json[p.value] == '[' {
      assert json[p.value..][1..] == json[p.value + 1..];
      txs := DeserializeTxs(json, p.value + 1, n);
    } else {
      txs := seq(n, _ => ZERO_TX);
      assert [] + txs == txs;
    }
  }

  ghost predicate BlocksRemaining(json: CString, at: nat, n: nat, got: seq<Block>, whole: Parsed<seq<Block>>) {
    at <= |json| && whole == PutBehind(got, ParseBlocks(json[at..], n))
  }

  lemma BlocksStep(json: CString, at: nat, n: nat, got: seq<Block>, whole: Parsed<seq<Block>>)
    requires n > 0 && BlocksRemaining(json, at, n, got, whole)
    ensures match NextObject(json[at..])
            case None => whole == Ok(got)
            case Some(next) =>
              match ParseBlock(next.0)
              case Rejected => whole == Rejected
              case OutsideModel => whole == OutsideModel
              case Ok(block) => whole == PutBehind(got + [block], ParseBlocks(next.1, n - 1))
  {
    hide ParseBlock, NextObject;
    assert got + [] == got;
    var next := NextObject(json[at..]);
    if next.Some? {
      var block, more := ParseBlock(next.value.0), ParseBlocks(next.value.1, n - 1);
      if block.Ok? && more.Ok? { Regroup(got, block.value, more.value); }
    }
  }

  /** The blocks are written into the array of the chain as they are read. */
  method DeserializeChain(json: CString, blocks: array<Block>) returns (r: Parsed<nat>)
    requires blocks.Length == MAX_BLOCKS
    modifies blocks
    ensures match ParseChain(json)
            case Rejected => r == Rejected
            case OutsideModel => r == OutsideModel
            case Ok(chain) => r == Ok(|chain|) && |chain| <= MAX_BLOCKS && blocks[..|chain|] == chain
  {
    hide ParseBlocks, ValueOf, GetInt;
    var length := JsonGetInt(json, "length");
    if length.None? || length.value <= 0 || length.value > MAX_BLOCKS {
      return Rejected;
    }
    var p := JsonFindKey(json, "blocks");
    ValueIsText(json, "blocks");
    if p.None? || p.value == |json| || json[p.value] != '[' {
      return Rejected;
    }
    assert json[p.value..][1..] == json[p.value + 1..];
    r := DeserializeBlocks(json, p.value + 1, length.value, blocks);
  }

  method DeserializeBlocks(json: CString, start: nat, length: nat, blocks: array<Block>) returns (r: Parsed<nat>)
    requires start <= |json| && length <= blocks.Length == MAX_BLOCKS
    modifies blocks
    ensures match ParseBlocks(json[start..], length)
            case Rejected => r == Rejected
            case OutsideModel => r == OutsideModel
            case Ok(chain) => r == Ok(|chain|) && |chain| <= MAX_BLOCKS && blocks[..|chain|] == chain
  {
    hide ParseBlock, NextObject;
    ghost var whole, got := ParseBlocks(json[start..], length), [];
    var at, i := start, 0;
    assert PutBehind([], whole) == whole by { if whole.Ok? { assert [] + whole.value == whole.value; } }
    while i < length
      invariant i <= length && i == |got| && blocks[..i] == got
      invariant BlocksRemaining(json, at, length - i, got, whole)
    {
      BlocksStep(json, at, length - i, got, whole);
      var next := FindObject(json, at);
      if next.None? {
        return Ok(i);
      }
      var block := DeserializeBlock(next.value.0);
      if block.Rejected? { return Rejected; }
      if block.OutsideModel? { return OutsideModel; }
      blocks[i] := block.value;
      got := got + [block.value];
      at, i := next.value.1, i + 1;
    }
    assert got + [] == got;
    return Ok(i);
  }

  /** `protocol_parse_msg` */
  method DeserializeMsg(json: CString) returns (kind: int, payload: Option<CString>)
    ensures (kind, payload) == ParseMsg(json)
  {
    hide ValueOf, GetInt, PayloadEnd;
    var number := JsonGetInt(json, "type");
    if number.None? {
      return -1, None;
    }
    var p := JsonFindKey(json, "payload");
    if p.None? {
      return number.value, None;
    }
    if p.value == |json| {
      return number.value, Some("");
    }
    var q := ScanPayload(json, p.value);
    var v := json[p.value..];
    assert v[..q - p.value] == json[p.value..q];
    return number.value, Some(json[p.value..q]);
  }
}
