/**
 What users can type: text in one line, and signatures and hashes in plain
 characters. Whatever braces, brackets, quotes and backslashes the addresses
 hold, what is read of such messages is of this kind again, line by line.
 */
module Clear {
  import opened Machine
  import opened LibC
  import opened Decimal
  import opened Records
  import opened Json
  import opened JsonLaws
  import opened Scanners
  import opened Protocol
  import opened RoundTrip
  import opened KeyLaws
  import opened Framing
  import opened Wire

  predicate ClearTx(tx: Tx) { OneLineTx(tx) && Printable(tx) }

  predicate ClearTxs(txs: seq<Tx>) { forall tx | tx in txs :: ClearTx(tx) }

  predicate ClearBlock(block: Block) {
    && OneLine(block.prevHash) && OneLine(block.hash) && IsPlain(block.prevHash) && IsPlain(block.hash)
    && ClearTxs(block.txs)
  }

  predicate ClearChain(chain: seq<Block>) { forall block | block in chain :: ClearBlock(block) }

  predicate ClearMsg(m: Msg) {
    match m
    case NewBlock(block) => ClearBlock(block)
    case NewTx(tx) => ClearTx(tx)
    case ChainResponse(chain) => ClearChain(chain)
    case _ => true
  }

  predicate ClearLine(l: Heard) { l.Ok? ==> ClearMsg(l.value) }

  lemma ClearBlockParts(block: Block)
    requires ClearBlock(block)
    ensures OneLineBlock(block) && PrintableBlock(block)
  {
    hide OneLineTx, Printable;
    assert forall i | 0 <= i < |block.txs| :: block.txs[i] in block.txs && ClearTx(block.txs[i]);
  }

  // Texts

  /** One line, in which every key of a plain string stands in front of one. */
  ghost predicate ClearText(t: string) {
    && OneLine(t)
    && forall key: string, pattern: string, j: nat | PlainKey(key) && Spells(pattern, key) ::
         AllowedAt(Plainly, key, pattern, t, j)
  }

  lemma {:induction false} PlainRunPrefix(s: string, t: string)
    requires s <= t && PlainRun(t)
    ensures PlainRun(s)
  {
    if s != "" && t[0] != '\"' { PlainRunPrefix(s[1..], t[1..]); }
  }

  lemma PlainBehindPrefix(s: string, t: string)
    requires s <= t && PlainBehind(t)
    ensures PlainBehind(s)
  {
    if s != "" { PlainRunPrefix(s[1..], t[1..]); }
  }

  /** Any part of a clear text is one. */
  lemma PartIsClear(t: string, a: nat, b: nat)
    requires ClearText(t) && a <= b <= |t|
    ensures ClearText(t[a..b])
  {
    var s := t[a..b];
    forall key: string, pattern: string, j: nat | PlainKey(key) && Spells(pattern, key)
      ensures AllowedAt(Plainly, key, pattern, s, j)
    {
      assert AllowedAt(Plainly, key, pattern, t, a + j);
      PartMatch(t, a, b, pattern, j);
      if MatchAt(s, j, pattern) {
        var i := j + |pattern|;
        assert s[i..] == t[a + i..][..|s| - i];
        PlainBehindPrefix(s[i..], t[a + i..]);
      }
    }
  }

  lemma {:induction false} UnquotePlain(s: string, room: nat)
    requires PlainRun(s)
    ensures IsPlain(Unquote(s, room))
  {
    if s != "" && s[0] != '\"' && room > 0 { UnquotePlain(s[1..], room - 1); }
  }

  lemma {:induction false} UnquoteOneLine(s: string, room: nat)
    requires OneLine(s)
    ensures OneLine(Unquote(s, room))
  {
    if s == "" || s[0] == '\"' || room == 0 {
    } else if s[0] == '\\' && |s| > 1 {
      UnquoteOneLine(s[2..], room - 1);
    } else {
      UnquoteOneLine(s[1..], room - 1);
    }
  }

  /** A value is what is left of the text from some place on. */
  lemma ValueIsSuffix(t: string, key: string)
    ensures var v := ValueOf(t, key); v.Some? ==> |v.value| <= |t| && v.value == t[|t| - |v.value|..]
  {
    hide FindKey;
    if ValueOf(t, key).Some? {
      var p := FindKey(t, key).value;
      FoundWithin(t, key);
      if Strchr(t[p..], ':').Some? { SuffixOfSuffix(t, p + Strchr(t[p..], ':').value + 1); }
    }
  }

  lemma SuffixOfSuffix(t: string, i: nat)
    requires i <= |t|
    ensures var v := SkipBlanks(t[i..]); |v| <= |t| && v == t[|t| - |v|..]
  {
    SkipBlanksIsSuffix(t[i..]);
  }

  lemma FoundWithin(t: string, key: string)
    ensures FindKey(t, key).Some? ==> FindKey(t, key).value <= |t|
  {
  }

  lemma StringIsOneLine(t: string, key: string, size: nat)
    requires OneLine(t) && size > 0
    ensures GetString(t, key, size).Some? ==> OneLine(GetString(t, key, size).value)
  {
    hide ValueOf;
    var v := ValueOf(t, key);
    ValueIsSuffix(t, key);
    if v.Some? && v.value != "" { UnquoteOneLine(v.value[1..], size - 1); }
  }

  /** The string of a plain key is plain, wherever it is read. */
  lemma StringIsPlain(t: string, key: string, size: nat)
    requires ClearText(t) && PlainKey(key) && size > 0
    ensures GetString(t, key, size).Some? ==> IsPlain(GetString(t, key, size).value)
  {
    hide FindKey, PlainKey, Pattern, OneLine;
    AskedIsKey(Plainly, key);
    if FindKey(t, key).Some? {
      var p := FindKey(t, key).value;
      FoundSpelled(t, key);
      var pattern :| Spells(pattern, key) && MatchAt(t, p, pattern);
      assert AllowedAt(Plainly, key, pattern, t, p);
      ValueAtPattern(t, key, p);
      var v := t[p + |pattern|..];
      if v != "" { UnquotePlain(v[1..], size - 1); }
    }
  }

  lemma PlainString(t: CString, key: string, size: nat)
    requires ClearText(t) && PlainKey(key) && size > 0
    ensures var r := GetString(t, key, size); r.Some? ==> IsPlain(r.value) && OneLine(r.value)
  {
    hide GetString, ClearText;
    StringIsPlain(t, key, size);
    assert OneLine(t) by { ClearIsOneLine(t); }
    StringIsOneLine(t, key, size);
  }

  lemma ClearIsOneLine(t: string)
    requires ClearText(t)
    ensures OneLine(t)
  {
  }

  // What is read of clear texts

  lemma TxReadIsClear(json: CString)
    requires ClearText(json)
    ensures ClearTx(ParseTx(json).0)
  {
    hide GetString, GetU64, ClearText;
    ClearIsOneLine(json);
    StringIsOneLine(json, "sender", 65);
    StringIsOneLine(json, "receiver", 65);
    PlainString(json, "signature", 129);
    PlainString(json, "tx_hash", 65);
  }

  lemma ObjectIsClear(s: CString)
    requires ClearText(s) && NextObject(s).Some?
    ensures ClearText(NextObject(s).value.0) && ClearText(NextObject(s).value.1)
  {
    hide ClearText, BraceEnd;
    var k := Strchr(s, '{').value;
    var end := k + BraceEnd(s[k..], 0);
    PartIsClear(s, k, end);
    PartIsClear(s, end, |s|);
    assert s[k..][..end - k] == s[k..end] && s[k..][end - k..] == s[end..|s|];
  }

  lemma {:induction false} TxsReadAreClear(s: CString, n: nat)
    requires ClearText(s)
    ensures ClearTxs(ParseTxs(s, n))
    decreases n
  {
    hide ClearText, NextObject, ParseTx, ClearTx;
    if n > 0 && NextObject(s).Some? {
      ObjectIsClear(s);
      TxReadIsClear(NextObject(s).value.0);
      TxsReadAreClear(NextObject(s).value.1, n - 1);
    }
  }

  lemma ValueIsClear(t: CString, key: string)
    requires ClearText(t)
    ensures ValueOf(t, key).Some? ==> ClearText(ValueOf(t, key).value) && '\0' !in ValueOf(t, key).value
  {
    hide ClearText, ValueOf;
    ValueIsText(t, key);
    ValueIsSuffix(t, key);
    var v := ValueOf(t, key);
    if v.Some? {
      assert t[|t| - |v.value|..|t|] == t[|t| - |v.value|..];
      PartIsClear(t, |t| - |v.value|, |t|);
    }
  }

  lemma ZeroIsClear()
    ensures ClearTx(ZERO_TX)
  {
  }

  lemma ListReadIsClear(json: CString, count: I32)
    requires ClearText(json)
    ensures ClearTxs(ParseTransactions(json, count))
  {
    hide ClearText, ParseTxs, ValueOf, ClearTx;
    ZeroIsClear();
    ValueIsClear(json, "transactions");
    var v := ValueOf(json, "transactions");
    if v.Some? && v.value != "" {
      PartIsClear(v.value, 1, |v.value|);
      assert v.value[1..|v.value|] == v.value[1..];
      TxsReadAreClear(v.value[1..], Turns(count));
    }
  }

  lemma BlockReadIsClear(json: CString)
    requires ClearText(json)
    ensures ParseBlock(json).Ok? ==> ClearBlock(ParseBlock(json).value)
  {
    hide GetString, GetU64, GetInt, ClearText, ParseTransactions, ClearTxs;
    PlainString(json, "prev_hash", 65);
    PlainString(json, "hash", 65);
    if ParseBlock(json).Ok? { ListReadIsClear(json, GetInt(json, "tx_count").value); }
  }

  lemma {:induction false} BlocksReadAreClear(s: CString, n: nat)
    requires ClearText(s)
    ensures ParseBlocks(s, n).Ok? ==> ClearChain(ParseBlocks(s, n).value)
    decreases n
  {
    hide ClearText, NextObject, ParseBlock, ClearBlock;
    if n > 0 && NextObject(s).Some? {
      ObjectIsClear(s);
      BlockReadIsClear(NextObject(s).value.0);
      BlocksReadAreClear(NextObject(s).value.1, n - 1);
    }
  }

  lemma ChainReadIsClear(json: CString)
    requires ClearText(json)
    ensures ParseChain(json).Ok? ==> ClearChain(ParseChain(json).value)
  {
    hide ClearText, ParseBlocks, ValueOf, GetInt, ClearChain;
    ValueIsClear(json, "blocks");
    var length, v := GetInt(json, "length"), ValueOf(json, "blocks");
    if length.Some? && 0 < length.value && v.Some? && v.value != "" {
      PartIsClear(v.value, 1, |v.value|);
      assert v.value[1..|v.value|] == v.value[1..];
      BlocksReadAreClear(v.value[1..], length.value);
    }
  }

  lemma PayloadReadIsClear(json: CString)
    requires ClearText(json)
    ensures ParseMsg(json).1.Some? ==> ClearText(ParseMsg(json).1.value)
  {
    hide ClearText, ValueOf, GetInt, PayloadEnd;
    ValueIsClear(json, "payload");
    var v := ValueOf(json, "payload");
    if v.Some? && v.value != "" {
      PartIsClear(v.value, 0, PayloadEnd(v.value, SCAN_START));
      assert v.value[0..PayloadEnd(v.value, SCAN_START)] == v.value[..PayloadEnd(v.value, SCAN_START)];
    }
    if v.Some? && v.value == "" { assert v.value[..0] == ""; PartIsClear(v.value, 0, 0); }
  }

  /** What is read of a clear text is clear, be the text whole or a part. */
  lemma ReadIsClear(raw: CString)
    requires ClearText(raw)
    ensures ClearLine(Decode(raw))
  {
    hide ClearText, ParseMsg, ParseTx, ParseBlock, ParseChain, ClearTx, ClearBlock, ClearChain;
    PayloadReadIsClear(raw);
    var payload := ParseMsg(raw).1;
    if payload.Some? {
      TxReadIsClear(payload.value);
      BlockReadIsClear(payload.value);
      ChainReadIsClear(payload.value);
    }
  }

  // What is printed is a clear text

  lemma PayloadIsVouched(place: Place, key: string, m: Msg)
    requires Asked(place, key) && ClearMsg(m) && key != "length" && key != "blocks"
    ensures Vouched(place, key, Payload(m))
  {
    hide Vouched, PrintableBlock, Asked, PrintBlock, PrintTx, PrintChain, ClearBlock, OneLineTx;
    AskedIsKey(place, key);
    match m {
      case NewBlock(block) =>
        ClearBlockParts(block);
        BlockIsVouched(place, key, block);
      case NewTx(tx) => TxIsVouched(place, key, tx);
      case ChainResponse(chain) =>
        forall i | 0 <= i < |chain| ensures PrintableBlock(chain[i]) {
          assert chain[i] in chain;
          ClearBlockParts(chain[i]);
        }
        ChainIsVouched(place, key, chain);
      case _ =>
        NothingIsVouched(place, key);
        BracketsAreVouched(place, key, '{', "", '}');
        assert ['{'] + "" + ['}'] == "{}";
    }
  }

  lemma PayloadIsOneLine(m: Msg)
    requires ClearMsg(m)
    ensures OneLine(Encode(m))
  {
    hide PrintBlock, PrintTx, PrintChain, ClearBlock, OneLineBlock, OneLineTx, Encode;
    match m {
      case NewBlock(block) =>
        ClearBlockParts(block);
        PrintBlockOneLine(block);
      case NewTx(tx) => PrintTxOneLine(tx);
      case ChainResponse(chain) =>
        forall i | 0 <= i < |chain| ensures OneLineBlock(chain[i]) {
          assert chain[i] in chain;
          ClearBlockParts(chain[i]);
        }
        PrintChainOneLine(chain);
      case _ =>
    }
    EncodeOneLine(m);
  }

  lemma PlainKeysDiffer(key: string)
    requires PlainKey(key)
    ensures key != "type" && key != "payload" && key != "length" && key != "blocks" && IsKey(key)
  {
    assert |"type"| == 4 && |"payload"| == 7 && |"length"| == |"blocks"| == 6;
    assert |"signature"| == |"prev_hash"| == 9 && |"tx_hash"| == 7 && |"hash"| == 4;
    var a, b, c, d := "type", "hash", "payload", "tx_hash";
    assert a[0] != b[0] && c[0] != d[0];
    AskedIsKey(Plainly, key);
  }

  lemma MessageIsVouched(key: string, m: Msg)
    requires PlainKey(key) && ClearMsg(m)
    ensures Vouched(Plainly, key, Encode(m))
  {
    hide Vouched, OwnValue, PlainKey, Payload, Numeral, Kind;
    PlainKeysDiffer(key);
    assert IsKey("type") && IsKey("payload");
    NumeralIsSafe(Kind(m));
    SafeIsVouched(Plainly, key, Numeral(Kind(m)));
    PayloadIsVouched(Plainly, key, m);
    ObjectIsVouched(Plainly, key, MsgFields(Kind(m), Payload(m)));
  }

  lemma EncodeIsClear(m: Msg)
    requires ClearMsg(m)
    ensures ClearText(Encode(m))
  {
    hide Encode, PlainKey, Spells, Allows;
    PayloadIsOneLine(m);
    var t := Encode(m);
    forall key: string, pattern: string, j: nat | PlainKey(key) && Spells(pattern, key)
      ensures AllowedAt(Plainly, key, pattern, t, j)
    {
      MessageIsVouched(key, m);
      VouchedToTheEnd(Plainly, key, pattern, t, j);
    }
  }

  // The pieces of a long line

  /** Behind its start a message shows no type. */
  lemma TypeStandsOnce(m: Msg, pattern: string, j: nat)
    requires ClearMsg(m) && Spells(pattern, "type") && j > 1
    ensures !MatchAt(Encode(m), j, pattern)
  {
    hide MatchAt, Payload, Numeral, Kind, Encode, Vouched;
    var n := Numeral(Kind(m));
    var f: Field, g: Field := ("type", n), ("payload", Payload(m));
    var behind := "," + (FieldText(g) + "}");
    TypeStands(m);
    assert IsKey("type") && |"type"| == 4 && IsKey("payload") && |"payload"| == 7;
    SpellsSeeks(pattern, "type");
    NumeralIsSafe(Kind(m));
    assert Encode(m) == "{" + (FieldText(f) + behind);
    if j < 8 {
      NoMatchInOwnKey("type", n, behind, pattern, j - 1);
      SuffixMatch("{", FieldText(f) + behind, pattern, j - 1);
    } else {
      var head := "{" + "\"type\":";
      assert Encode(m) == head + (n + behind);
      if j - 8 <= |n| {
        NoMatchInValue(n, behind, "type", pattern, j - 8);
        SuffixMatch(head, n + behind, pattern, j - 8);
      } else {
        PayloadIsVouched(Nowhere, "type", m);
        FieldIsVouched(Nowhere, "type", g);
        BehindIsVouched(Nowhere, "type", FieldText(g), "}", pattern, j - 9 - |n|);
        assert Encode(m) == head + n + "," + (FieldText(g) + "}");
        SuffixMatch(head + n + ",", FieldText(g) + "}", pattern, j - 9 - |n|);
      }
    }
  }

  lemma BehindIsVouched(place: Place, key: string, v: string, rest: string, pattern: string, j: nat)
    requires Vouched(place, key, v) && Spells(pattern, key) && place == Nowhere && rest == "}"
    ensures !MatchAt(v + rest, j, pattern)
  {
    if j < |v| {
      assert AllowedAt(place, key, pattern, v + rest, j);
    } else {
      Mismatch(v + rest, j, pattern, 0);
    }
  }

  lemma PieceIsRejected(m: Msg, q: nat)
    requires ClearMsg(m) && '\0' !in Encode(m) && 0 < q < |Pieces(Encode(m))|
    ensures Decode(Pieces(Encode(m))[q]) == Rejected
  {
    hide Encode, Pieces, MatchAt;
    var t: CString := Encode(m);
    var at := PieceStands(t, q);
    var piece := Pieces(t)[q];
    forall pattern: string, j: nat | Spells(pattern, "type") ensures !MatchAt(piece, j, pattern) {
      TypeStandsOnce(m, pattern, at + j);
      PartMatch(t, at, at + |piece|, pattern, j);
    }
    NoTypeIsRejected(piece);
  }

  lemma NoTypeIsRejected(raw: CString)
    requires forall pattern: string, j: nat | Spells(pattern, "type") :: !MatchAt(raw, j, pattern)
    ensures Decode(raw) == Rejected
  {
    hide MatchAt, ParseTx, ParseBlock, ParseChain;
    StrstrIsFirst(raw, Pattern("type"));
    StrstrIsFirst(raw, SpacedPattern("type"));
    assert Spells(Pattern("type"), "type") && Spells(SpacedPattern("type"), "type");
    assert GetInt(raw, "type") == None;
  }

  /**
   How a clear message is read: of a line that is longer than the reader's
   buffer the first piece is read for the message, whose kind is not mistaken,
   and the others are no messages.
   */
  lemma ClearReading(m: Msg)
    requires ClearMsg(m)
    ensures '\0' !in Encode(m)
    ensures |Reading(m)| == 1 + |Encode(m)| / ROOM_FOR_LINE && Reading(m)[0] == Decode(FirstPiece(Encode(m)))
    ensures Reading(m)[0].Ok? ==> Kind(Reading(m)[0].value) == Kind(m)
    ensures forall q | 0 < q < |Reading(m)| :: Reading(m)[q] == Rejected
    ensures forall l | l in Reading(m) :: ClearLine(l)
  {
    hide Encode, Decode, Pieces, ClearMsg, Kind;
    EncodeIsText(m);
    PayloadIsOneLine(m);
    var t: CString := Encode(m);
    LongLineInPieces(t);
    DecodeEach(Pieces(t));
    forall q | 0 < q < |Pieces(t)| ensures Decode(Pieces(t)[q]) == Rejected { PieceIsRejected(m, q); }
    AtLeastTheType(m);
    KindArrives(m, |FirstPiece(t)|);
    assert t[..|FirstPiece(t)|] == FirstPiece(t);
    EncodeIsClear(m);
    PartIsClear(t, 0, |FirstPiece(t)|);
    assert t[0..|FirstPiece(t)|] == FirstPiece(t);
    ReadIsClear(FirstPiece(t));
  }

  lemma AtLeastTheType(m: Msg)
    ensures |Encode(m)| >= 10
  {
    hide Encode, Numeral, Payload;
    TypeStands(m);
  }

  lemma {:induction false} DecodeEach(lines: seq<CString>)
    ensures |DecodeAll(lines)| == |lines|
    ensures forall q | 0 <= q < |lines| :: DecodeAll(lines)[q] == Decode(lines[q])
  {
    hide Decode;
    if lines != [] { DecodeEach(lines[1..]); }
  }
}
