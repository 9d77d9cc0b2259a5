/**
 Chains whose line is longer than the reader's buffer: what a peer makes of the
 first full buffer, and exactly which responses are received.
 */
module LongLines {
  import opened Machine
  import opened Decimal
  import opened LibC
  import opened Records
  import opened Json
  import opened JsonLaws
  import opened Scanners
  import opened ScanLaws
  import opened Protocol
  import opened Codec
  import opened RoundTrip
  import opened Messages
  import opened Framing
  import opened Wire
  import opened Cuts

  // Lists of blocks

  predicate NamedBlock(block: Block) { WellFormedBlock(block) && WellFormedTxs(block.txs) }

  predicate NamedBlocks(chain: seq<Block>) { forall i | 0 <= i < |chain| :: NamedBlock(chain[i]) }

  /** What may be read of a chain that is cut off: a prefix of it, of which the
      last block may have lost some of what is hashed. */
  predicate CutChain(chain: seq<Block>, read: seq<Block>) {
    && |read| <= |chain|
    && (forall i | 0 <= i < |read| - 1 :: read[i] == chain[i])
    && (read != [] ==> CutBlock(chain[|read| - 1], read[|read| - 1]))
  }

  /** The last block that is read is not the one that was sent. */
  predicate LastDiffers(chain: seq<Block>, read: seq<Block>)
    requires |read| <= |chain|
  {
    read != [] && read[|read| - 1] != chain[|read| - 1]
  }

  predicate LastHasTxs(chain: seq<Block>) { chain == [] || chain[|chain| - 1].txs != [] }

  /** What becomes of a list of blocks that is cut off at `k`. */
  predicate CutResult(chain: seq<Block>, k: nat, size: nat, r: Parsed<seq<Block>>) {
    && (r == Rejected || (r.Ok? && CutChain(chain, r.value)))
    && (r.Ok? && LastDiffers(chain, r.value) ==> k < 6113 * |r.value|)
    && (LastHasTxs(chain) ==> (r == Ok(chain) <==> chain == [] || k + 4 >= size))
  }

  predicate ParsesAs(s: string, n: nat, r: Parsed<seq<Block>>) { '\0' !in s && r == ParseBlocks(s, n) }

  lemma PutNothingBehind(block: Block, n: nat)
    ensures PutBehind([block], ParseBlocks("", n)) == Ok([block])
  {
    assert [block] + [] == [block];
  }

  lemma BlocksCutInFirst(lead: string, chain: seq<Block>, k: nat) returns (r: Parsed<seq<Block>>)
    requires lead == "" || lead == ","
    requires NamedBlocks(chain) && chain != [] && k <= |PrintBlock(chain[0])|
    ensures k <= |Join(BlockTexts(chain))| && ParsesAs(lead + Join(BlockTexts(chain))[..k], |chain|, r)
    ensures CutResult(chain, k, |Join(BlockTexts(chain))|, r)
  {
    hide NextObject, ParseBlock, NamedBlock, IsObject, Join, PrintBlock, CutBlock;
    var items := BlockTexts(chain);
    NamedParts(chain[0]);
    PrintBlockIsObject(chain[0]);
    PrintBlockFits(chain[0]);
    forall i | 0 <= i < |items| ensures |items[i]| > 4 { BlockTextIsLong(chain[i]); }
    FollowsLonger(items, 4);
    CutFirst(lead, items, k);
    var s: CString := lead + Join(items)[..k];
    r := ParseBlocks(s, |chain|);
    if k > 0 {
      BlockCut(chain[0], k);
      var got := ParseBlock(PrintBlock(chain[0])[..k]);
      if got.Ok? { PutNothingBehind(got.value, |chain| - 1); }
      assert r == if got.Ok? then Ok([got.value]) else Rejected;
      assert |chain| == 1 ==> chain == [chain[0]];
    }
  }

  lemma NamedParts(block: Block)
    requires NamedBlock(block)
    ensures WellFormedBlock(block) && WellFormedTxs(block.txs)
  {
  }

  lemma BlockTextIsLong(block: Block)
    ensures |PrintBlock(block)| > 4
  {
    hide BlockHead, CountHead;
    BlockOpens(block);
    CountStandsBack(block);
  }

  lemma CutResultGrows(chain: seq<Block>, k: nat, size: nat, first: nat, r: Parsed<seq<Block>>)
    requires chain != [] && CutResult(chain[1..], k, size, r) && first <= 6112 && chain[1..] != []
    ensures CutResult(chain, k + first + 1, size + first + 1, PutBehind([chain[0]], r))
  {
    hide CutBlock;
    var rest := chain[1..];
    assert chain == [chain[0]] + rest && rest[|rest| - 1] == chain[|chain| - 1];
    if r.Ok? {
      var all := [chain[0]] + r.value;
      assert all[1..] == r.value;
      assert forall i | 1 <= i < |chain| :: chain[i] == rest[i - 1];
      OwnCut(chain[0]);
    }
  }

  lemma OwnCut(block: Block)
    ensures CutBlock(block, block)
  {
  }

  /** The loop over the blocks of a list that is cut off. */
  lemma {:induction false} BlocksCut(lead: string, chain: seq<Block>, k: nat) returns (r: Parsed<seq<Block>>)
    requires lead == "" || lead == ","
    requires NamedBlocks(chain) && k <= |Join(BlockTexts(chain))|
    ensures ParsesAs(lead + Join(BlockTexts(chain))[..k], |chain|, r)
    ensures CutResult(chain, k, |Join(BlockTexts(chain))|, r)
    decreases |chain|
  {
    hide NextObject, ParseBlock, NamedBlock, IsObject, Join, PrintBlock, CutResult;
    var items := BlockTexts(chain);
    if chain == [] {
      JoinOfNothing(items);
      assert lead + Join(items)[..k] == lead;
      r := Ok([]);
      NothingIsCut();
    } else if k <= |PrintBlock(chain[0])| {
      r := BlocksCutInFirst(lead, chain, k);
    } else {
      NamedParts(chain[0]);
      PrintBlockIsObject(chain[0]);
      PrintBlockFits(chain[0]);
      BlockListFits(chain);
      CutBehindFirst(lead, items, k);
      WholeBlock(chain[0]);
      assert items[1..] == BlockTexts(chain[1..]);
      var first := |items[0]|;
      var more := BlocksCut(",", chain[1..], k - first - 1);
      r := PutBehind([chain[0]], more);
      JoinIsFirst(items, "");
      assert Join(items) + "" == Join(items) && Join(items[1..]) + "" == Join(items[1..]);
      CutResultGrows(chain, k - first - 1, |Join(items[1..])|, first, more);
    }
  }

  lemma NothingIsCut()
    ensures CutResult([], 0, 0, Ok([]))
  {
  }

  // Chains

  function ChainFront(chain: seq<Block>): seq<Field> { [("length", Numeral(|chain|))] }

  function ChainStart(chain: seq<Block>): string { HeadOf(ChainFront(chain), "blocks") }

  lemma ChainStartText(chain: seq<Block>)
    ensures PrintChain(chain) == ChainStart(chain) + ("[" + (Join(BlockTexts(chain)) + "]}"))
    ensures |chain| <= MAX_BLOCKS ==> |ChainStart(chain)| <= 40
  {
    var items := Join(BlockTexts(chain));
    var list := "[" + items + "]";
    assert ChainFields(chain) == ChainFront(chain) + [("blocks", list)];
    OpenSnoc(ChainFront(chain), "blocks", list);
    Assoc(ChainStart(chain), list, "}");
    Assoc("[", items, "]");
    Assoc("[", items + "]", "}");
    Assoc(items, "]", "}");
    assert "]" + "}" == "]}";
    if |chain| <= MAX_BLOCKS { NumeralFits(|chain|); }
  }

  lemma OpenChainReads(chain: seq<Block>, v: CString)
    requires 1 <= |chain| <= MAX_BLOCKS && v != "" && v[0] == '['
    ensures '\0' !in ChainStart(chain) + v
    ensures ParseChain(ChainStart(chain) + v) == ParseBlocks(v[1..], |chain|)
  {
    hide GetInt, ValueOf, ParseBlocks, Findable, OpenObject, Numeral;
    var f := ChainFront(chain) + [("blocks", v)];
    OpenSnoc(ChainFront(chain), "blocks", v);
    assert OpenObject(f) + "" == ChainStart(chain) + v;
    ChainStartIsText(chain);
    OpenChainFindable(chain, v);
    OpenInt(f, 0, "", |chain|);
    FindsInOpen(f, 1, "");
    assert v + "" == v;
  }

  lemma OpenChainFindable(chain: seq<Block>, v: string)
    requires v != "" && v[0] == '['
    ensures Findable(ChainFront(chain) + [("blocks", v)], 0) && Findable(ChainFront(chain) + [("blocks", v)], 1)
  {
    assert |"length"| == |"blocks"|;
    var a, b := "length", "blocks";
    assert a[0] != b[0] && IsKey(a) && IsKey(b);
    NumeralIsSafe(|chain|);
  }

  lemma ChainStartIsText(chain: seq<Block>)
    ensures '\0' !in ChainStart(chain)
  {
    hide PrintChain, ChainStart;
    PrintChainFits(chain);
    ChainStartText(chain);
    assert forall i | 0 <= i < |ChainStart(chain)| :: ChainStart(chain)[i] == PrintChain(chain)[i];
  }

  /** A chain that is cut off within its list, or right behind it. */
  lemma ChainCut(chain: seq<Block>, k: nat) returns (r: Parsed<seq<Block>>)
    requires 1 <= |chain| <= MAX_BLOCKS && NamedBlocks(chain)
    requires |ChainStart(chain)| < k <= |PrintChain(chain)|
    ensures '\0' !in PrintChain(chain)[..k] && r == ParseChain(PrintChain(chain)[..k])
    ensures r == Rejected || (r.Ok? && CutChain(chain, r.value))
    ensures r.Ok? && LastDiffers(chain, r.value) ==> k < |ChainStart(chain)| + 1 + 6113 * |r.value|
    ensures LastHasTxs(chain) ==> (r == Ok(chain) <==> k + 6 >= |PrintChain(chain)|)
  {
    hide ParseChain, ParseBlocks, ChainStart, PrintChain, Join, NamedBlock;
    var items := Join(BlockTexts(chain));
    var list, m := "[" + (items + "]}"), k - |ChainStart(chain)| - 1;
    ChainStartText(chain);
    PrintChainFits(chain);
    BlockListFits(chain);
    PrefixBehind(ChainStart(chain), list, k);
    var v: CString := list[..m + 1];
    assert v[1..] == (items + "]}")[..m];
    OpenChainReads(chain, v);
    if m <= |items| {
      assert (items + "]}")[..m] == items[..m] == "" + items[..m];
      r := BlocksCut("", chain, m);
    } else {
      var rest := "]}"[..m - |items|];
      assert (items + "]}")[..m] == "" + (items + rest);
      forall i | 0 <= i < |chain| ensures WellFormedBlock(chain[i]) { NamedParts(chain[i]); }
      ParsesBlocks("", chain, rest);
      r := Ok(chain);
      OwnCut(chain[|chain| - 1]);
    }
  }

  // Responses

  const RESPONSE_FRONT: seq<Field> := [("type", Numeral(MSG_CHAIN_RESPONSE))]

  const RESPONSE_START: string := HeadOf(RESPONSE_FRONT, "payload")

  lemma ResponseText(chain: seq<Block>)
    ensures Encode(ChainResponse(chain)) == RESPONSE_START + (PrintChain(chain) + "}")
    ensures |RESPONSE_START| == 20
  {
    hide PrintChain;
    var p := PrintChain(chain);
    assert MsgFields(MSG_CHAIN_RESPONSE, p) == RESPONSE_FRONT + [("payload", p)];
    OpenSnoc(RESPONSE_FRONT, "payload", p);
    Assoc(RESPONSE_START, p, "}");
    assert |"type"| == 4 && |"payload"| == 7;
  }

  /** A message that is cut off within its payload is read with what is left,
      as far as the scan goes. */
  lemma OpenResponseReads(w: CString)
    requires w != "" && w[0] == '{'
    ensures '\0' !in RESPONSE_START + w
    ensures ParseMsg(RESPONSE_START + w) == (MSG_CHAIN_RESPONSE, Some(w[..PayloadEnd(w, SCAN_START)]))
  {
    hide GetInt, ValueOf, PayloadEnd, Findable, OpenObject;
    var f := RESPONSE_FRONT + [("payload", w)];
    OpenSnoc(RESPONSE_FRONT, "payload", w);
    assert OpenObject(f) + "" == RESPONSE_START + w;
    NumeralIsSafe(MSG_CHAIN_RESPONSE);
    ResponseStartIsText();
    OpenResponseFindable(w);
    ToI32Exact(MSG_CHAIN_RESPONSE);
    OpenInt(f, 0, "", MSG_CHAIN_RESPONSE);
    FindsInOpen(f, 1, "");
    assert w + "" == w;
  }

  lemma ResponseStartIsText()
    ensures '\0' !in RESPONSE_START
  {
    hide Encode, PrintChain;
    EncodeIsText(ChainResponse([]));
    ResponseText([]);
    var t := Encode(ChainResponse([]));
    assert forall i | 0 <= i < |RESPONSE_START| :: RESPONSE_START[i] == t[i];
  }

  lemma OpenResponseFindable(w: string)
    requires w != "" && w[0] == '{'
    ensures Findable(RESPONSE_FRONT + [("payload", w)], 0) && Findable(RESPONSE_FRONT + [("payload", w)], 1)
  {
    assert |"type"| != |"payload"|;
    assert IsKey("type") && IsKey("payload");
    NumeralIsSafe(MSG_CHAIN_RESPONSE);
  }

  /** What is asked of a chain, that its response can be read back. */
  predicate Answerable(chain: seq<Block>) {
    && 1 <= |chain| <= MAX_BLOCKS
    && forall i | 0 <= i < |chain| :: SendableBlock(chain[i]) && NamedBlock(chain[i])
  }

  lemma AnswerableParts(chain: seq<Block>)
    requires Answerable(chain)
    ensures SendableChain(chain) && NamedBlocks(chain)
    ensures forall i | 0 <= i < |chain| :: TransportableBlock(chain[i])
  {
    hide NamedBlock, WellFormedBlock, OneLineBlock;
    forall i | 0 <= i < |chain|
      ensures SendableBlock(chain[i]) && NamedBlock(chain[i]) && TransportableBlock(chain[i])
    {
      assert SendableBlock(chain[i]);
    }
  }

  /** What the first full buffer of a response is read as. */
  lemma ResponseCut(chain: seq<Block>, k: nat) returns (r: Parsed<seq<Block>>)
    requires Answerable(chain) && 20 + |ChainStart(chain)| < k <= |Encode(ChainResponse(chain))| - 1
    ensures '\0' !in Encode(ChainResponse(chain))[..k]
    ensures Decode(Encode(ChainResponse(chain))[..k]) == (if r.Ok? then Ok(ChainResponse(r.value)) else Rejected)
    ensures r == Rejected || (r.Ok? && CutChain(chain, r.value))
    ensures r.Ok? && LastDiffers(chain, r.value) ==> k < 21 + |ChainStart(chain)| + 6113 * |r.value|
    ensures LastHasTxs(chain) ==> (r == Ok(chain) <==> k + 7 >= |Encode(ChainResponse(chain))|)
  {
    hide ParseChain, ParseMsg, ParseTx, ParseBlock, PrintChain, Neutral, Encode, ChainStart, PayloadEnd, Answerable,
         CutChain, ChainFields;
    AnswerableParts(chain);
    var p := PrintChain(chain);
    ResponseText(chain);
    EncodeIsText(ChainResponse(chain));
    PrefixBehind(RESPONSE_START, p + "}", k);
    r := ChainCut(chain, k - 20);
    var w: CString := p[..k - 20];
    assert (p + "}")[..k - 20] == w;
    ChainIsBody(chain, k - 20);
    OpenResponseReads(w);
    assert w[..|w|] == w;
  }

  lemma ChainIsBody(chain: seq<Block>, k: nat)
    requires (forall i | 0 <= i < |chain| :: TransportableBlock(chain[i])) && 0 < k <= |PrintChain(chain)|
    ensures PayloadEnd(PrintChain(chain)[..k], SCAN_START) == k && PrintChain(chain)[0] == '{'
  {
    hide Neutral, PayloadEnd;
    ChainBodyIsNeutral(chain);
    CutPayloadEndsLast(Fields(ChainFields(chain)), k);
  }

  /** The line of the response loses no more than what need not be read. */
  predicate FitsBuffer(chain: seq<Block>) { |Encode(ChainResponse(chain))| <= MAX_MSG_SIZE + 6 }

  /** The lengths of keys and values, with the quotes, colons and commas of fields. */
  function Size(fields: seq<Field>): nat {
    if fields == [] then 0 else |fields[0].0| + |fields[0].1| + 4 + Size(fields[1..])
  }

  lemma {:induction false} FieldsSize(fields: seq<Field>)
    requires fields != []
    ensures |Fields(fields)| + 1 == Size(fields)
  {
    if |fields| > 1 { FieldsSize(fields[1..]); }
  }

  lemma BlockSize(block: Block)
    ensures |PrintBlock(block)| >= 91 + |block.prevHash| + |block.hash|
  {
    var f := BlockFields(block, PrintTxs(block.txs));
    FieldsSize(f);
    assert f[1..][1..] == f[2..] && f[2..][1..] == f[3..] && f[3..][1..] == f[4..];
    assert f[4..][1..] == f[5..] && f[5..][1..] == f[6..] && f[6..][1..] == [];
    assert Size(f[6..]) >= 18 && Size(f[5..]) >= 31 && Size(f[4..]) >= 41 + |block.hash|;
    assert Size(f[3..]) >= 51 + |block.hash| && Size(f[2..]) >= 66 + |block.hash| + |block.prevHash|;
  }

  predicate FullNames(chain: seq<Block>) {
    forall i | 0 <= i < |chain| :: |chain[i].prevHash| == |chain[i].hash| == 64
  }

  lemma {:induction false} ListSize(chain: seq<Block>)
    requires FullNames(chain)
    ensures |Join(BlockTexts(chain))| + 1 >= 220 * |chain|
  {
    hide PrintBlock;
    var items := BlockTexts(chain);
    if chain != [] {
      BlockSize(chain[0]);
      assert items[1..] == BlockTexts(chain[1..]);
      ListSize(chain[1..]);
    }
  }

  /** Less than half of the blocks that the array has room for. */
  const TOO_MANY: nat := 4767

  /** They never fit, whatever they hold. */
  lemma ManyNeverFit(chain: seq<Block>)
    requires FullNames(chain) && |chain| >= TOO_MANY
    ensures !FitsBuffer(chain)
  {
    hide Join, ChainStart, PrintChain;
    ListSize(chain);
    ChainStartText(chain);
    ResponseText(chain);
  }

  /**
   What the first full buffer of a long response is read as: nothing, or a
   prefix of the chain, of which the last block, beyond the first 171, may have
   lost some of what is hashed. It is the chain itself exactly when no more than
   seven characters are lost.
   */
  lemma LongResponse(chain: seq<Block>) returns (r: Parsed<seq<Block>>)
    requires Answerable(chain) && |Encode(ChainResponse(chain))| >= ROOM_FOR_LINE
    ensures '\0' !in Encode(ChainResponse(chain))
    ensures Decode(FirstPiece(Encode(ChainResponse(chain)))) == (if r.Ok? then Ok(ChainResponse(r.value)) else Rejected)
    ensures r == Rejected || (r.Ok? && CutChain(chain, r.value))
    ensures r.Ok? && LastDiffers(chain, r.value) ==> |r.value| > 171
    ensures LastHasTxs(chain) ==> (r == Ok(chain) <==> FitsBuffer(chain))
  {
    hide Encode, Decode, Answerable, ChainStart, PrintChain, CutChain;
    var t := Encode(ChainResponse(chain));
    EncodeIsText(ChainResponse(chain));
    AnswerableParts(chain);
    ChainStartText(chain);
    if |t| == ROOM_FOR_LINE {
      r := Ok(chain);
      WholeResponse(chain);
      assert t[..ROOM_FOR_LINE] == t;
      ChainIsCut(chain);
    } else {
      r := ResponseCut(chain, ROOM_FOR_LINE);
    }
  }

  lemma WholeResponse(chain: seq<Block>)
    requires Answerable(chain)
    ensures '\0' !in Encode(ChainResponse(chain)) && Decode(Encode(ChainResponse(chain))) == Ok(ChainResponse(chain))
  {
    hide ParseMsg, ParseChain, PrintMsg, NamedBlock, TransportableBlock, WellFormedBlock, OneLineBlock, PrintChain;
    forall i | 0 <= i < |chain| ensures WellFormedBlock(chain[i]) && TransportableBlock(chain[i]) {
      assert SendableBlock(chain[i]);
    }
    ChainMessageRoundTrip(chain);
  }

  lemma ChainIsCut(chain: seq<Block>)
    ensures CutChain(chain, chain)
  {
    if chain != [] { OwnCut(chain[|chain| - 1]); }
  }
}
