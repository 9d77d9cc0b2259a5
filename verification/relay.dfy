/**
 Exactly which blocks can be relayed: the payload scan must get through the
 list of transactions, and the brace scan must cut it at the right places.
 */
module Relaying {
  import opened Machine
  import opened Decimal
  import opened LibC
  import opened Records
  import opened Json
  import opened JsonLaws
  import opened Scanners
  import opened ScanLaws
  import opened Protocol
  import opened BraceLaws
  import opened Codec
  import opened RoundTrip
  import opened KeyLaws
  import opened KeyCounts
  import opened Messages
  import opened Cuts
  import opened Transport
  import opened Carry
  import opened Survival
  import opened Wire

  predicate AllBare(txs: seq<Tx>) { forall i | 0 <= i < |txs| :: Bare(txs[i]) }

  // Where the payload scan ends in a list

  /** A transaction up to its receiver, and up to its closing brace. */
  function Addresses(tx: Tx): string { "{" + SenderPart(tx) + ReceiverPart(tx) }

  lemma AddressFields(tx: Tx)
    ensures Addresses(tx)
         == "{" + Fields([("sender", Quote(Escape(tx.sender))), ("receiver", Quote(Escape(tx.receiver)))])
  {
    var f: Field, g: Field := ("sender", Quote(Escape(tx.sender))), ("receiver", Quote(Escape(tx.receiver)));
    assert [f, g][1..] == [g];
    assert "\"" + "sender" + "\":" == "\"sender\":" && "\"" + "receiver" + "\":" == "\"receiver\":";
    assert Fields([f, g]) == SenderPart(tx) + "," + FieldText(g);
    assert "," + "\"receiver\":" == ",\"receiver\":";
    Assoc(",", "\"receiver\":", Quote(Escape(tx.receiver)));
    Assoc(SenderPart(tx), ",", FieldText(g));
    Assoc("{", SenderPart(tx), ReceiverPart(tx));
  }

  lemma AddressKeys()
    ensures IsKey("sender") && IsKey("receiver") && IsKey("tx_hash") && "sender" != "tx_hash" && "receiver" != "tx_hash"
  {
    assert |"sender"| == 6 && |"receiver"| == 8 && |"tx_hash"| == 7;
  }

  /** No hash stands in front of the receiver's end. */
  lemma NoHashYet(tx: Tx, n: nat)
    requires n <= |Addresses(tx)|
    ensures Places("tx_hash", Addresses(tx)[..n]) == 0
  {
    hide Places, Vouched, Addresses, MatchAt;
    var f: Field, g: Field := ("sender", Quote(Escape(tx.sender))), ("receiver", Quote(Escape(tx.receiver)));
    var t := Addresses(tx);
    AddressFields(tx);
    AddressKeys();
    QuotedIsSafe(tx.sender);
    QuotedIsSafe(tx.receiver);
    SafeIsVouched(Nowhere, "tx_hash", f.1);
    SafeIsVouched(Nowhere, "tx_hash", g.1);
    FieldsAreVouched(Nowhere, "tx_hash", [f, g]);
    VouchedBehind(Nowhere, "tx_hash", '{', Fields([f, g]));
    assert t[..n] == t[0..n];
    forall i: nat ensures !KeyAt("tx_hash", t[..n], i) {
      NoneInPart(t, n, Pattern("tx_hash"), i);
      NoneInPart(t, n, SpacedPattern("tx_hash"), i);
    }
    NowhereIsNone("tx_hash", t[..n]);
  }

  lemma NoneInPart(t: string, n: nat, pattern: string, i: nat)
    requires Vouched(Nowhere, "tx_hash", t) && Spells(pattern, "tx_hash") && n <= |t|
    ensures !MatchAt(t[0..n], i, pattern)
  {
    hide Vouched, MatchAt;
    VouchedToTheEnd(Nowhere, "tx_hash", pattern, t, i);
    PartMatch(t, 0, n, pattern, i);
  }

  /** The scan that ends in an address. */
  lemma EndsInAddress(tx: Tx, more: string, st: Scan)
    requires Bare(tx) && st.depth > 0 && !st.slash && PastTx(st, tx).None?
    ensures var n := PayloadEnd(PrintTx(tx) + more, st);
            n <= |Addresses(tx)| <= |PrintTx(tx)| && PrintTx(tx)[..n] == Addresses(tx)[..n]
  {
    hide SenderPart, ReceiverPart, Rear, PastTx, PayloadEnd, PrintTx;
    TxRun(tx, st);
    PrintedParts(tx);
    var rest := Rear(tx) + "}";
    Assoc(Addresses(tx), Rear(tx), "}");
    Assoc(Addresses(tx), rest, more);
    PayloadEndsWithin(Addresses(tx), rest + more, st);
  }

  /** The scan that comes to the closing brace of a transaction. */
  lemma ComesToBrace(tx: Tx, more: string, st: Scan)
    requires Bare(tx) && st.depth > 0 && !st.slash && PastTx(st, tx).Some?
    ensures |PrintTx(tx)| > 0
    ensures PayloadEnd(PrintTx(tx) + more, st) == |PrintTx(tx)| - 1 + PayloadEnd("}" + more, PastTx(st, tx).value)
  {
    hide SenderPart, ReceiverPart, Rear, PastTx, PayloadEnd, PrintTx;
    TxRun(tx, st);
    PrintedParts(tx);
    var front := Addresses(tx) + Rear(tx);
    Assoc(front, "}", more);
    PayloadEndPast(front, "}" + more, st);
  }

  lemma PastBrace(more: string, st: Scan)
    requires st.depth > 0 && !st.slash
    ensures PayloadEnd("}" + ("," + more), st)
         == if Closed(st).depth <= 0 then 1
            else if more == "" then 2 else 2 + PayloadEnd(more, Closed(st))
  {
    var text := "}" + ("," + more);
    assert text[1..] == "," + more && ("," + more)[1..] == more;
    assert ScanStep(st, '}') == Closed(st);
    if Closed(st).depth > 0 { assert ScanStep(Closed(st), ',') == Closed(st); }
  }

  /** What is in front of the place where the scan ends. */
  predicate StopsShort(txs: TxList, n: nat) {
    n <= |Join(TxTexts(txs))| && Places("tx_hash", Join(TxTexts(txs))[..n]) < |txs|
  }

  lemma FirstStops(txs: TxList, n: nat)
    requires txs != [] && n <= |Addresses(txs[0])| <= |PrintTx(txs[0])|
    requires PrintTx(txs[0])[..n] == Addresses(txs[0])[..n]
    ensures StopsShort(txs, n)
  {
    hide PrintTx, Addresses, Places, Join;
    var items := TxTexts(txs);
    JoinIsFirst(items, "");
    assert Join(items) + "" == Join(items);
    NoHashYet(txs[0], n);
    assert Join(items)[..n] == PrintTx(txs[0])[..n];
  }

  lemma StopsBehindFirst(txs: TxList)
    requires |txs| > 1 && Printable(txs[0])
    ensures StopsShort(txs, |PrintTx(txs[0])|)
  {
    hide PrintTx, Places, Join;
    var items := TxTexts(txs);
    JoinIsFirst(items, "");
    assert Join(items) + "" == Join(items);
    assert Join(items)[..|PrintTx(txs[0])|] == PrintTx(txs[0]) + "";
    TxHasOneKey("tx_hash", txs[0], "");
    NothingHasNone();
  }

  lemma NothingHasNone()
    ensures Places("tx_hash", "") == 0
  {
  }

  lemma StopsFurther(txs: TxList, n: nat)
    requires |txs| > 1 && Printable(txs[0]) && StopsShort(txs[1..], n)
    ensures StopsShort(txs, |PrintTx(txs[0])| + 1 + n)
  {
    hide PrintTx, Places, Join;
    var items := TxTexts(txs);
    assert items[1..] == TxTexts(txs[1..]);
    JoinIsFirst(items, "");
    assert Join(items) + "" == Join(items) && Join(items[1..]) + "" == Join(items[1..]);
    var part := Join(items[1..])[..n];
    assert Join(items)[..|PrintTx(txs[0])| + 1 + n] == PrintTx(txs[0]) + ([','] + part);
    TxHasOneKey("tx_hash", txs[0], [','] + part);
    OtherStartIsNoKey("tx_hash", ',', part);
  }

  /**
   The payload scan gets through the list, or it stops where at least one
   transaction has not shown its hash yet.
   */
  lemma {:induction false} ListScan(txs: TxList, rest: string, st: Scan)
    requires AllBare(txs) && txs != [] && rest != "" && st.depth > 0 && !st.slash
    ensures var n := PayloadEnd(Join(TxTexts(txs)) + rest, st);
            if PastTxs(st, txs).Some? then n >= |Join(TxTexts(txs))| else StopsShort(txs, n)
    decreases |txs|
  {
    hide PrintTx, PayloadEnd, Join, Bare, StopsShort, PastTx, Addresses;
    var items := TxTexts(txs);
    var more := Follow(items[1..], rest);
    JoinIsFirst(items, rest);
    JoinIsFirst(items, "");
    assert Join(items) + "" == Join(items);
    if PastTx(st, txs[0]).None? {
      EndsInAddress(txs[0], more, st);
      FirstStops(txs, PayloadEnd(PrintTx(txs[0]) + more, st));
    } else {
      PastTxIsOpen(st, txs[0]);
      ComesToBrace(txs[0], more, st);
      if |txs| > 1 {
        assert items[1..] == TxTexts(txs[1..]);
        var mid := PastTx(st, txs[0]).value;
        BareIsPrintable(txs[0]);
        FollowMeans(items[1..], rest);
        PastBrace(Join(items[1..]) + rest, mid);
        assert Join(items[1..]) + rest != "";
        if Closed(mid).depth <= 0 {
          StopsBehindFirst(txs);
        } else {
          ListScan(txs[1..], rest, Closed(mid));
          if PastTxs(st, txs).None? { StopsFurther(txs, PayloadEnd(Join(items[1..]) + rest, Closed(mid))); }
          FollowMeans(items[1..], "");
          assert Join(items[1..]) + "" == Join(items[1..]);
        }
      }
    }
  }

  lemma BareIsPrintable(tx: Tx)
    requires Bare(tx)
    ensures Printable(tx)
  {
  }

  // The payload of a block

  lemma BlockHeadRun(block: Block)
    requires IsPlain(block.prevHash) && IsPlain(block.hash)
    ensures Run(BlockHead(block) + "[", SCAN_START) == Some(Outside(2))
  {
    hide Neutral, IsKey, Numeral, SignedNumeral;
    var f := BlockFront(block);
    NumeralIsNeutral(block.index);
    SignedIsNeutral(block.timestamp);
    PlainIsNeutral(block.prevHash);
    NumeralIsNeutral(block.nonce);
    PlainIsNeutral(block.hash);
    NumeralIsNeutral(|block.txs|);
    BlockKeys(block, "");
    forall i | 0 <= i < |f| ensures IsKey(f[i].0) && Neutral(f[i].1) { assert f[i] in BlockFields(block, ""); }
    FieldsAreNeutral(f);
    assert IsKey("transactions");
    KeyIsNeutral("transactions");
    QuietIsNeutral(",");
    QuietIsNeutral(":");
    var key := Quote("transactions");
    NeutralConcat(Fields(f), ",");
    NeutralConcat(Fields(f) + ",", key);
    NeutralConcat(Fields(f) + "," + key, ":");
    var body := Fields(f) + "," + key + ":";
    assert BlockHead(block) == "{" + body;
    OpensTwice(body);
  }

  lemma OpensTwice(body: string)
    requires Neutral(body)
    ensures Run("{" + body + "[", SCAN_START) == Some(Outside(2))
  {
    assert "{"[1..] == "" && "["[1..] == "";
    assert Run("{", SCAN_START) == Some(Outside(1)) && Run("[", Outside(1)) == Some(Outside(2));
    RunConcat("{", body, SCAN_START);
    RunConcat("{" + body, "[", SCAN_START);
  }

  /** What the peer takes for the payload of an object. */
  function PayloadOf(p: string): string
    requires p != ""
  {
    (p + "}")[..PayloadEnd(p + "}", SCAN_START)]
  }

  lemma PayloadArrives(kind: nat, body: CString)
    requires kind <= 6
    ensures var p := "{" + body + "}";
            && '\0' !in PrintMsg(kind, p) && '\0' !in PayloadOf(p)
            && ParseMsg(PrintMsg(kind, p)) == (kind, Some(PayloadOf(p)))
  {
    hide GetInt, ValueOf, Findable, PayloadEnd;
    var p := "{" + body + "}";
    var f, json := MsgFields(kind, p), PrintMsg(kind, p);
    PrintMsgFits(kind, p);
    MsgFindable(kind, body);
    assert json + "" == json && "}" + "" == "}";
    ReadsInt(f, 0, "", kind);
    FindsTheField(f, 1, "");
  }

  /** The payload of a block as far as it is taken. */
  lemma BlockPayload(block: Block) returns (n: nat)
    requires IsPlain(block.prevHash) && IsPlain(block.hash) && AllBare(block.txs)
    ensures n <= |Join(TxTexts(block.txs)) + "]}}"|
    ensures PayloadOf(PrintBlock(block)) == BlockHead(block) + ("[" + (Join(TxTexts(block.txs)) + "]}}")[..n])
    ensures if Carried(block.txs) then n >= |Join(TxTexts(block.txs))| else StopsShort(block.txs, n)
  {
    hide PayloadEnd, Join, BlockHead, StopsShort, Bare, PrintBlock;
    var list := Join(TxTexts(block.txs));
    BlockOpens(block);
    BlockHeadRun(block);
    var front, text := BlockHead(block) + "[", list + "]}}";
    assert PrintBlock(block) + "}" == front + text by { RegroupBlock(BlockHead(block), list); }
    PayloadEndPast(front, text, SCAN_START);
    n := PayloadEnd(text, Outside(2));
    assert (front + text)[..|front| + n] == front + text[..n];
    Assoc(BlockHead(block), "[", text[..n]);
    if block.txs == [] { JoinOfNothing(TxTexts(block.txs)); } else { ListScan(block.txs, "]}}", Outside(2)); }
  }

  lemma RegroupBlock(head: string, list: string)
    ensures head + ("[" + (list + "]}")) + "}" == head + "[" + (list + "]}}")
  {
    assert "]}" + "}" == "]}}";
  }

  /** With fewer hashes than transactions, some transaction loses its own. */
  lemma ShortListLoses(txs: TxList, s: CString)
    requires AllHashed(txs) && Places("tx_hash", s) < |txs|
    ensures Padded(ParseTxs(s, |txs|), |txs|) != txs
    ensures exists k :: 0 <= k < |txs| && Padded(ParseTxs(s, |txs|), |txs|)[k].txHash == ""
  {
    hide Places, ParseTxs, Hashed;
    var got := ParseTxs(s, |txs|);
    if AllRead(got, |txs|) { ObjectsNeedKeys("tx_hash", s, |txs|); }
    HashIsLost(txs, got);
  }

  /** How a relayed block is read. */
  predicate RelayedAs(block: Block, read: Block) {
    && read == block.(txs := read.txs) && |read.txs| == |block.txs|
    && (read == block <==> Carried(block.txs) && Survive(block.txs))
    && (read != block ==> exists k :: 0 <= k < |read.txs| && read.txs[k].txHash == "")
  }

  lemma CarriedList(block: Block, n: nat) returns (txs: TxList)
    requires AllHashed(block.txs) && Carried(block.txs)
    requires |Join(TxTexts(block.txs))| <= n <= |Join(TxTexts(block.txs)) + "]}}"|
    ensures '\0' !in (Join(TxTexts(block.txs)) + "]}}")[..n]
    ensures txs == Padded(ParseTxs((Join(TxTexts(block.txs)) + "]}}")[..n], |block.txs|), |block.txs|)
    ensures RelayedAs(block, block.(txs := txs))
  {
    hide Join, ParseTxs, NoSenders, Survive, Carried, Hashed;
    TextsFit(block.txs);
    var list := Join(TxTexts(block.txs));
    var rest: CString := "]}}"[..n - |list|];
    assert (list + "]}}")[..n] == list + rest;
    NothingBehind(n - |list|);
    ListSurvivesExactly(block.txs, rest);
    txs := ReadTxs(block.txs, rest);
    var read := block.(txs := txs);
    assert read == block <==> txs == block.txs;
  }

  lemma LostList(block: Block, n: nat) returns (txs: TxList)
    requires AllHashed(block.txs) && !Carried(block.txs) && StopsShort(block.txs, n)
    ensures '\0' !in (Join(TxTexts(block.txs)) + "]}}")[..n]
    ensures txs == Padded(ParseTxs((Join(TxTexts(block.txs)) + "]}}")[..n], |block.txs|), |block.txs|)
    ensures RelayedAs(block, block.(txs := txs))
  {
    hide Join, ParseTxs, Survive, Carried, Hashed, Places;
    TextsFit(block.txs);
    var list := Join(TxTexts(block.txs));
    ShortListLoses(block.txs, list[..n]);
    assert (list + "]}}")[..n] == list[..n];
    txs := Padded(ParseTxs(list[..n], |block.txs|), |block.txs|);
    var read := block.(txs := txs);
    assert read.txs != block.txs;
  }

  /**
   What a relayed block is on the other end, whatever its addresses hold: it
   arrives unaltered if and only if the payload scan gets through its list and
   its transactions survive the brace scan; and otherwise some transaction has
   lost its hash.
   */
  lemma RelaySurvivesExactly(block: Block) returns (read: Block)
    requires IsPlain(block.prevHash) && IsPlain(block.hash) && AllHashed(block.txs) && AllBare(block.txs)
    requires OneLineBlock(block)
    ensures Reading(NewBlock(block)) == [Ok(NewBlock(read))] && RelayedAs(block, read)
  {
    hide Reading, ParseBlock, ParseMsg, ParseTxs, Join, BlockHead, PrintBlock, Carried, StopsShort, Hashed, Bare,
         OneLineBlock, RelayedAs, PrintMsg, PayloadOf, ParseTx, ParseChain;
    PrintBlockFits(block);
    PrintBlockOneLine(block);
    EncodeOneLine(NewBlock(block));
    ShortEnough(NewBlock(block));
    ShortReading(NewBlock(block));
    var n := BlockPayload(block);
    var txs: TxList;
    if Carried(block.txs) { txs := CarriedList(block, n); } else { txs := LostList(block, n); }
    read := block.(txs := txs);
    var v: CString := "[" + (Join(TxTexts(block.txs)) + "]}}")[..n];
    assert v[1..] == (Join(TxTexts(block.txs)) + "]}}")[..n];
    OpenBlockReads(block, v);
    BlockPayloadArrives(block);
  }

  lemma BlockPayloadArrives(block: Block)
    ensures '\0' !in PrintMsg(MSG_NEW_BLOCK, PrintBlock(block)) && '\0' !in PayloadOf(PrintBlock(block))
    ensures ParseMsg(PrintMsg(MSG_NEW_BLOCK, PrintBlock(block)))
         == (MSG_NEW_BLOCK, Some(PayloadOf(PrintBlock(block))))
  {
    hide ParseMsg, PrintMsg, PayloadOf;
    PrintBlockFits(block);
    var body := Fields(BlockFields(block, PrintTxs(block.txs)));
    BodyIsText(body);
    PayloadArrives(MSG_NEW_BLOCK, body);
  }

  /** A payment to a closing brace does not survive, and one to an opening brace
      survives as the last of its block only. A receiver that ends in a
      backslash survives alone, but not in front of one that closes brackets. */
  lemma BackslashDecides(tx: Tx, other: Tx)
    requires tx.sender == other.sender == "a" && tx.receiver == "a\\" && other.receiver == "]]]"
    ensures Carried([tx]) && Survive([tx])
    ensures !Carried([tx, other]) && Survive([tx, other])
  {
    assert [tx, other][1..] == [other] && [tx, other][0] == tx && [tx, other][1] == other;
    assert PastTx(Outside(2), tx) == Some(Scan(3, true, false));
    assert Sink("a", 3) == Some(3) by { assert "a"[1..] == ""; }
    assert PastAddress(Scan(3, true, false), "a") == Some(Scan(3, true, false));
    assert Sink("]]]", 3) == None by { assert "]]]"[1..] == "]]" && "]]"[1..] == "]" && "]"[1..] == ""; }
    assert PastTx(Scan(3, true, false), other) == None;
    assert PastTxs(Scan(3, true, false), [other]) == None;
    assert Closed(Scan(3, true, false)) == Scan(3, true, false);
    NoBracesRun(tx.sender + tx.receiver, 1);
    NoBracesRun(other.sender + other.receiver, 1);
  }
}
