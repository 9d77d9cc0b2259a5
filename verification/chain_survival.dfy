/**
 Exactly which chains survive the string-blind brace scan.
 */
module ChainSurvival {
  import opened Machine
  import opened LibC
  import opened Records
  import opened Json
  import opened JsonLaws
  import opened Scanners
  import opened ScanLaws
  import opened Protocol
  import opened BraceLaws
  import opened Codec
  import opened RoundTrip
  import opened Messages
  import opened KeyCounts
  import opened Cuts
  import opened Carry
  import opened Survival
  import opened Relaying
  import opened LongLines
  import opened Headers

  predicate HashedBlock(block: Block) {
    PlainText(block.prevHash) && PlainText(block.hash) && AllHashed(block.txs)
  }

  predicate HashedBlocks(chain: seq<Block>) { forall i | 0 <= i < |chain| :: HashedBlock(chain[i]) }

  predicate Paired(txs: seq<Tx>) { forall i | 0 <= i < |txs| :: Balanced(txs[i].sender + txs[i].receiver) }

  /** Braces in pairs, but in the very last transaction some may stay open. */
  predicate ChainSurvives(chain: seq<Block>) {
    && (forall i | 0 <= i < |chain| - 1 :: Paired(chain[i].txs))
    && (chain != [] ==> Survive(chain[|chain| - 1].txs))
  }

  // Where the scan cuts a block

  function BlockBody(block: Block): string { Fields(BlockFields(block, PrintTxs(block.txs))) }

  /** How deep the scan is behind the list of a block that survives. */
  function ListDepth(txs: seq<Tx>): (d: int)
    requires Survive(txs)
    ensures d > 0
  {
    if txs == [] then 1
    else
      RunStaysOpen(txs[|txs| - 1].sender + txs[|txs| - 1].receiver, 1);
      Depth(txs[|txs| - 1]).value
  }

  lemma TxTextDepth(tx: Tx)
    requires Hashed(tx) && Depth(tx).Some?
    ensures BraceRun(PrintTx(tx), 1) == Depth(tx)
  {
    hide Body, PrintTx;
    BodyDepth(tx);
    RunStaysOpen(tx.sender + tx.receiver, 1);
    BraceRunDeeper(Body(tx), 1, 1);
    PrintedBody(tx, "");
    assert PrintTx(tx) + "" == PrintTx(tx) && "}" + "" == "}";
    assert "{"[1..] == "" && "}"[1..] == "";
    BraceRunConcat("{", Body(tx), 1);
    BraceRunConcat("{" + Body(tx), "}", 1);
  }

  lemma {:induction false} JoinDepth(txs: TxList)
    requires AllHashed(txs) && Survive(txs)
    ensures BraceRun(Join(TxTexts(txs)), 1) == Some(ListDepth(txs))
    decreases |txs|
  {
    hide PrintTx, Join, Hashed, Depth;
    var items := TxTexts(txs);
    if txs == [] {
      JoinOfNothing(items);
    } else {
      JoinIsFirst(items, "");
      assert Join(items) + "" == Join(items);
      LastDepth(txs[0]);
      if |txs| > 1 {
        SurvivesBehind(txs);
        TxTextDepth(txs[0]);
        BraceRunConcat(PrintTx(txs[0]), "," + Join(items[1..]), 1);
        NoBracesRun(",", 1);
        BraceRunConcat(",", Join(items[1..]), 1);
        assert items[1..] == TxTexts(txs[1..]) && Join(items[1..]) + "" == Join(items[1..]);
        JoinDepth(txs[1..]);
      } else {
        TxTextDepth(txs[0]);
        assert PrintTx(txs[0]) + "" == PrintTx(txs[0]);
      }
    }
  }

  lemma LastDepth(tx: Tx)
    ensures Depth(tx) == BraceRun(tx.sender + tx.receiver, 1)
    ensures Balanced(tx.sender + tx.receiver) <==> Depth(tx) == Some(1)
  {
  }

  lemma SurvivesBehind(txs: seq<Tx>)
    requires |txs| > 1 && Survive(txs)
    ensures Balanced(txs[0].sender + txs[0].receiver) && Survive(txs[1..]) && ListDepth(txs[1..]) == ListDepth(txs)
  {
    hide Balanced;
    var rest := txs[1..];
    assert rest[|rest| - 1] == txs[|txs| - 1];
    assert forall i | 0 <= i < |rest| - 1 :: rest[i] == txs[i + 1];
  }

  lemma BlockDepth(block: Block)
    requires HashedBlock(block) && Survive(block.txs)
    ensures BraceRun(BlockBody(block), 1) == Some(ListDepth(block.txs))
  {
    hide Survive, AllHashed, ListDepth, IsPlain;
    var f, list := BlockFields(block, PrintTxs(block.txs)), Join(TxTexts(block.txs));
    BlockKeys(block, PrintTxs(block.txs));
    FieldsAreTheirValues(f);
    BlockValues(block, PrintTxs(block.txs));
    SameWithin("[", list, "]");
    JoinDepth(block.txs);
    assert BraceRun(Values(f), 1) == BraceRun(PrintTxs(block.txs), 1);
  }

  /** A block that survives is cut behind its end: exactly there when no brace
      of it stays open. */
  lemma BlockIsCut(block: Block, more: string)
    requires HashedBlock(block) && Survive(block.txs) && more != ""
    ensures var e := BraceEnd(PrintBlock(block) + more, 0);
            e >= |PrintBlock(block)| && (e == |PrintBlock(block)| <==> ListDepth(block.txs) == 1)
  {
    hide Survive, HashedBlock, ListDepth, BlockBody, BraceEnd;
    var body, d := BlockBody(block), ListDepth(block.txs);
    BlockDepth(block);
    PrintedBlockBody(block);
    Assoc("{" + body, "}", more);
    BehindOpenBrace(body, "}" + more);
    BehindClosing(more, d);
  }

  lemma PrintedBlockBody(block: Block)
    ensures PrintBlock(block) == "{" + BlockBody(block) + "}" && |PrintBlock(block)| == |BlockBody(block)| + 2
  {
  }

  lemma PairedExactly(txs: seq<Tx>)
    ensures Paired(txs) <==> Survive(txs) && ListDepth(txs) == 1
  {
    hide BraceRun;
  }

  // What is read of a cut block

  /** Cut behind its end, it is read whole if it survives. */
  lemma SurvivorIsRead(block: Block, more: CString)
    requires HashedBlock(block) && Survive(block.txs)
    ensures '\0' !in PrintBlock(block) + more && ParseBlock(PrintBlock(block) + more) == Ok(block)
  {
    hide ParseBlock, ParseTxs, BlockHead, PrintBlock, Join, Survive, AllHashed;
    PrintBlockFits(block);
    TextsFit(block.txs);
    BlockOpens(block);
    var list := Join(TxTexts(block.txs));
    var v: CString := "[" + (list + ("]}" + more));
    assert v[1..] == "" + (list + ("]}" + more));
    Assoc(BlockHead(block), "[" + (list + "]}"), more);
    Assoc("[", list + "]}", more);
    Assoc(list, "]}", more);
    OpenBlockReads(block, v);
    SurvivorsAreRead("", block.txs, "]}" + more);
    assert Padded(block.txs, |block.txs|) == block.txs;
  }

  lemma RearHasNoBraces(tx: Tx)
    requires Hashed(tx)
    ensures NoBraces(Rear(tx))
  {
    hide NoBraces, IsKey;
    var f := TxFields("", "", tx);
    TxKeys("", "", tx);
    NumeralHasNoBraces(tx.amount);
    NumeralHasNoBraces(tx.fee);
    QuotedHasNoBraces(tx.signature);
    QuotedHasNoBraces(tx.txHash);
    assert forall i | 0 <= i < |f[2..]| :: f[2..][i] in f;
    FieldsHaveNoBraces(f[2..]);
    CommaHasNoBraces(Fields(f[2..]));
  }

  lemma CommaHasNoBraces(s: string)
    requires NoBraces(s)
    ensures NoBraces("," + s)
  {
  }

  /** A closing brace inside a printed transaction stands in its addresses. */
  lemma BraceInAddresses(tx: Tx, m: nat)
    requires Hashed(tx) && 0 < m < |PrintTx(tx)| && PrintTx(tx)[m - 1] == '}'
    ensures m <= |Addresses(tx)| <= |PrintTx(tx)| && PrintTx(tx)[..m] == Addresses(tx)[..m]
  {
    hide SenderPart, ReceiverPart, Rear, PrintTx;
    PrintedParts(tx);
    RearHasNoBraces(tx);
    var a, r := Addresses(tx), Rear(tx);
    assert PrintTx(tx) == a + r + "}";
    assert forall i | |a| <= i < |a| + |r| :: PrintTx(tx)[i] == r[i - |a|];
  }

  /** A list that is cut at a closing brace before its end does not show all hashes. */
  lemma {:induction false} EndsShort(txs: TxList, m: nat)
    requires AllHashed(txs) && 0 < m < |Join(TxTexts(txs))| && Join(TxTexts(txs))[m - 1] == '}'
    ensures StopsShort(txs, m)
    decreases |txs|
  {
    hide PrintTx, Join, StopsShort, Hashed, Addresses;
    var items := TxTexts(txs);
    if txs == [] {
      JoinOfNothing(items);
    } else {
      JoinIsFirst(items, "");
      assert Join(items) + "" == Join(items);
      var first := |PrintTx(txs[0])|;
      HashedIsPrintable(txs[0]);
      assert first == |items[0]|;
      if m < first {
        assert Join(items)[m - 1] == PrintTx(txs[0])[m - 1];
        BraceInAddresses(txs[0], m);
        FirstStops(txs, m);
      } else if |txs| > 1 {
        assert items[1..] == TxTexts(txs[1..]) && Join(items[1..]) + "" == Join(items[1..]);
        if m == first {
          StopsBehindFirst(txs);
        } else {
          assert Join(items) == items[0] + "," + Join(items[1..]);
          assert m > first + 1;
          EndsShort(txs[1..], m - first - 1);
          StopsFurther(txs, m - first - 1);
        }
      }
    }
  }

  lemma HashedIsPrintable(tx: Tx)
    requires Hashed(tx)
    ensures Printable(tx)
  {
  }

  /** Cut at a closing brace, or behind its end, a block is read whole only if it survives. */
  lemma ReadIsSurvivor(block: Block, j: nat)
    requires HashedBlock(block) && 0 < j <= |PrintBlock(block) + "]}"|
    requires j >= |PrintBlock(block)| || PrintBlock(block)[j - 1] == '}'
    requires '\0' !in (PrintBlock(block) + "]}")[..j] && ParseBlock((PrintBlock(block) + "]}")[..j]) == Ok(block)
    ensures Survive(block.txs)
  {
    hide ParseBlock, ParseTxs, BlockHead, PrintBlock, Join, Survive, AllHashed, StopsShort, NoBraces;
    var head, list := BlockHead(block), Join(TxTexts(block.txs));
    BlockOpens(block);
    TextsFit(block.txs);
    HashedIsFramed(block);
    HeadHasNoBraces(block);
    var text := list + "]}]}";
    assert PrintBlock(block) + "]}" == head + ("[" + text);
    assert forall i | 0 <= i < |head| :: PrintBlock(block)[i] == head[i];
    assert j > |head|;
    var m := j - |head| - 1;
    var v: CString := "[" + text[..m];
    assert (PrintBlock(block) + "]}")[..j] == head + v && v[1..] == text[..m];
    OpenBlockReads(block, v);
    assert m <= |list| ==> text[..m] == list[..m];
    assert PrintBlock(block)[|head|] == '[';
    assert 0 < m < |list| ==> PrintBlock(block)[j - 1] == list[m - 1];
    if m >= |list| {
      var rest: CString := "]}]}"[..m - |list|];
      assert text[..m] == list + rest;
      NoSendersBehind(m - |list|);
      ListSurvivesExactly(block.txs, rest);
    } else {
      LosesAHash(block.txs, m);
    }
  }

  lemma LosesAHash(txs: TxList, m: nat)
    requires AllHashed(txs) && 0 < m < |Join(TxTexts(txs))| && Join(TxTexts(txs))[m - 1] == '}'
    requires '\0' !in Join(TxTexts(txs))
    ensures Padded(ParseTxs(Join(TxTexts(txs))[..m], |txs|), |txs|) != txs
  {
    hide Places, ParseTxs, Hashed, Join;
    EndsShort(txs, m);
    ShortListLoses(txs, Join(TxTexts(txs))[..m]);
  }

  lemma NoSendersBehind(k: nat)
    requires k <= 4
    ensures NoSenders("]}]}"[..k])
  {
    var s := "]}]}"[..k];
    forall i: nat ensures !KeyAt("sender", s, i) {
      Mismatch(s, i, Pattern("sender"), 0);
      Mismatch(s, i, SpacedPattern("sender"), 0);
    }
    NowhereIsNone("sender", s);
  }

  lemma HashedIsFramed(block: Block)
    requires HashedBlock(block)
    ensures Framed(block)
  {
    forall i | 0 <= i < |block.txs| ensures Printable(block.txs[i]) { assert Hashed(block.txs[i]); }
  }

  // Lists of blocks

  /** What stands behind the blocks in front. */
  function ListText(chain: seq<Block>): CString {
    if chain == [] then "]}"
    else
      PrintBlockFits(chain[0]);
      "," + PrintBlock(chain[0]) + ListText(chain[1..])
  }

  lemma {:induction false} TailIsListText(chain: seq<Block>)
    ensures Tail(chain) == ListText(chain) + "}" && ListText(chain) != ""
  {
    hide PrintBlock;
    if chain != [] {
      TailIsListText(chain[1..]);
      Assoc("," + PrintBlock(chain[0]), ListText(chain[1..]), "}");
    }
  }

  /** Where the first block is cut. */
  function CutAt(block: Block, more: string): (e: nat)
    ensures 1 <= e <= |PrintBlock(block) + more|
  {
    BraceEnd(PrintBlock(block) + more, 0)
  }

  /** What is cut out for the first block, and what is left. */
  function CutOut(block: Block, more: CString): CString {
    PrintBlockFits(block);
    (PrintBlock(block) + more)[..CutAt(block, more)]
  }

  function LeftOver(block: Block, more: CString): CString {
    PrintBlockFits(block);
    (PrintBlock(block) + more)[CutAt(block, more)..]
  }

  lemma FirstBlockIsCut(lead: string, block: Block, more: CString)
    requires lead == "" || lead == ","
    ensures '\0' !in PrintBlock(block) + more
    ensures NextObject(lead + (PrintBlock(block) + more)) == Some((CutOut(block, more), LeftOver(block, more)))
    ensures var text, e := PrintBlock(block) + more, CutAt(block, more); e == |text| || text[e - 1] == '}'
  {
    hide BraceEnd;
    PrintBlockFits(block);
    var text := PrintBlock(block) + more;
    assert text == ['{'] + text[1..];
    StrchrIs(lead, '{', text[1..]);
    assert lead + text == lead + ['{'] + text[1..];
    assert (lead + text)[|lead|..] == text;
    EndsAtBrace(text, 0);
  }

  lemma {:induction false} FollowsNoLonger(read: seq<Block>, chain: seq<Block>)
    requires Follows(read, chain)
    ensures |read| <= |chain|
  {
    if read != [] {
      FollowsNoLonger(if Follows(read, chain[1..]) then read else read[1..], chain[1..]);
    }
  }

  lemma {:induction false} ListTextStarts(chain: seq<Block>)
    requires chain != []
    ensures |ListText(chain)| > 1 && ListText(chain)[0] == ','
  {
    hide PrintBlock;
    TailIsListText(chain[1..]);
  }

  /** What is left is a part of the text of the others. */
  lemma {:induction false} LeftIsPart(chain: seq<Block>) returns (z: nat)
    requires |chain| > 1 && CutAt(chain[0], ListText(chain[1..])) > |PrintBlock(chain[0])|
    ensures var rest := chain[1..];
            && 1 < z <= |ListText(rest)| < |Tail(rest)| && Between(rest, z, |ListText(rest)|)
            && LeftOver(chain[0], ListText(rest)) == Part(rest, z, |ListText(rest)|)
  {
    hide PrintBlock, ListText, CutAt, Tail;
    var block, list := chain[0], ListText(chain[1..]);
    var e := CutAt(block, list);
    z := e - |PrintBlock(block)|;
    FirstBlockIsCut("", block, list);
    TailIsListText(chain[1..]);
    ListTextStarts(chain[1..]);
    CutInSecond(PrintBlock(block), list, e);
  }

  lemma CutInSecond(s: string, t: string, e: nat)
    requires |s| < e <= |s + t| && |t| > 1 && t[0] == ',' && (e == |s + t| || (s + t)[e - 1] == '}')
    ensures e - |s| > 1 && (e - |s| == |t| || (t + "}")[e - |s| - 1] == '}')
    ensures (s + t)[e..] == (t + "}")[e - |s|..|t|]
  {
    assert (s + t)[e - 1] == t[e - |s| - 1];
  }

  /** When the first block is cut too late, too few are left to be read. */
  lemma {:induction false} CutTooLate(chain: seq<Block>, n: nat)
    requires |chain| > 1 && HashedBlocks(chain)
    requires CutAt(chain[0], ListText(chain[1..])) > |PrintBlock(chain[0])|
    ensures ParseBlocks(LeftOver(chain[0], ListText(chain[1..])), n) != Ok(chain[1..])
  {
    hide ParseBlocks, PrintBlock, HashedBlock, Tail, ListText, Follows, CutAt, LeftOver, ReadFrom, Framed;
    var rest := chain[1..];
    var z := LeftIsPart(chain);
    forall i | 0 <= i < |rest| ensures Framed(rest[i]) { HashedIsFramed(chain[i + 1]); }
    HeadersFollow(rest, z, |ListText(rest)|, n);
    var r := ParseBlocks(LeftOver(chain[0], ListText(rest)), n);
    if r.Ok? { FewerAreRead(rest, r.value, z); }
  }

  lemma FewerAreRead(chain: seq<Block>, read: seq<Block>, z: nat)
    requires chain != [] && ReadFrom(read, chain, z) && z > 1
    ensures read != chain
  {
    hide BearsHeader;
    FollowsNoLonger(read, chain[1..]);
  }

  lemma SurvivorCutOut(block: Block)
    requires HashedBlock(block) && Survive(block.txs)
    ensures ParseBlock(CutOut(block, "]}")) == Ok(block)
  {
    hide ParseBlock, PrintBlock, HashedBlock, Survive, CutAt;
    CutsBehind(block, "]}");
    var more: CString := "]}"[..CutAt(block, "]}") - |PrintBlock(block)|];
    assert CutOut(block, "]}") == PrintBlock(block) + more;
    SurvivorIsRead(block, more);
  }

  /** The last block of a list. */
  lemma LastBlockExactly(block: Block)
    requires HashedBlock(block)
    ensures ParseBlock(CutOut(block, "]}")) == Ok(block) <==> Survive(block.txs)
  {
    hide ParseBlock, PrintBlock, HashedBlock, Survive, CutAt;
    var text, e := PrintBlock(block) + "]}", CutAt(block, "]}");
    FirstBlockIsCut("", block, "]}");
    if Survive(block.txs) {
      SurvivorCutOut(block);
    } else if ParseBlock(CutOut(block, "]}")) == Ok(block) {
      assert e < |PrintBlock(block)| ==> PrintBlock(block)[e - 1] == text[e - 1];
      ReadIsSurvivor(block, e);
    }
  }

  lemma CutsBehind(block: Block, more: string)
    requires HashedBlock(block) && Survive(block.txs) && more != ""
    ensures CutAt(block, more) >= |PrintBlock(block)|
    ensures CutAt(block, more) == |PrintBlock(block)| <==> Paired(block.txs)
  {
    hide HashedBlock, Survive, PrintBlock, BraceEnd;
    BlockIsCut(block, more);
    PairedExactly(block.txs);
  }

  /** A block with others behind it: it is cut exactly and read whole if and only
      if all its braces are in pairs. */
  lemma PairedIsRead(block: Block, more: CString)
    requires HashedBlock(block) && Paired(block.txs) && more != ""
    ensures ParseBlock(CutOut(block, more)) == Ok(block) && LeftOver(block, more) == more
  {
    hide HashedBlock, Survive, PrintBlock, ParseBlock, CutAt, Paired;
    PairedExactly(block.txs);
    CutsBehind(block, more);
    SurvivorIsRead(block, "");
    assert PrintBlock(block) + "" == PrintBlock(block);
  }

  lemma ReadIsPaired(block: Block, more: CString)
    requires HashedBlock(block) && more != "" && CutAt(block, more) <= |PrintBlock(block)|
    requires ParseBlock(CutOut(block, more)) == Ok(block)
    ensures Paired(block.txs) && CutAt(block, more) == |PrintBlock(block)|
  {
    hide HashedBlock, Survive, PrintBlock, ParseBlock, CutAt, Paired;
    var e := CutAt(block, more);
    FirstBlockIsCut("", block, more);
    assert (PrintBlock(block) + "]}")[..e] == PrintBlock(block)[..e] == CutOut(block, more);
    assert (PrintBlock(block) + more)[e - 1] == PrintBlock(block)[e - 1];
    ReadIsSurvivor(block, e);
    CutsBehind(block, more);
  }

  predicate ListIsRead(lead: string, chain: seq<Block>)
    requires chain != [] && (lead == "" || lead == ",")
  {
    PrintBlockFits(chain[0]);
    ParseBlocks(lead + (PrintBlock(chain[0]) + ListText(chain[1..])), |chain|) == Ok(chain)
  }

  lemma ListStep(lead: string, chain: seq<Block>)
    requires chain != [] && (lead == "" || lead == ",")
    ensures var more := ListText(chain[1..]);
            ListIsRead(lead, chain) <==>
              && ParseBlock(CutOut(chain[0], more)) == Ok(chain[0])
              && ParseBlocks(LeftOver(chain[0], more), |chain| - 1) == Ok(chain[1..])
  {
    hide ParseBlock, PrintBlock, NextObject, CutOut, LeftOver, ListText, ParseBlocks;
    var more := ListText(chain[1..]);
    FirstBlockIsCut(lead, chain[0], more);
    OneTurn(lead + (PrintBlock(chain[0]) + more), CutOut(chain[0], more), LeftOver(chain[0], more), chain);
  }

  /** One turn of the reading loop. */
  lemma OneTurn(s: CString, first: CString, left: CString, chain: seq<Block>)
    requires NextObject(s) == Some((first, left)) && chain != []
    ensures ParseBlocks(s, |chain|) == Ok(chain) <==>
              ParseBlock(first) == Ok(chain[0]) && ParseBlocks(left, |chain| - 1) == Ok(chain[1..])
  {
    hide ParseBlock, NextObject;
    assert chain == [chain[0]] + chain[1..];
    var b, more := ParseBlock(first), ParseBlocks(left, |chain| - 1);
    if b.Ok? && more.Ok? {
      var all := [b.value] + more.value;
      assert all[0] == b.value && all[1..] == more.value;
    }
  }

  lemma {:induction false} ListSurvives(lead: string, chain: seq<Block>)
    requires chain != [] && HashedBlocks(chain) && (lead == "" || lead == ",")
    ensures ListIsRead(lead, chain) <==> ChainSurvives(chain)
    decreases |chain|
  {
    hide ParseBlock, ParseBlocks, PrintBlock, HashedBlock, CutAt, ListText, Paired, ListIsRead, CutOut, LeftOver,
         ChainSurvives;
    var block, rest := chain[0], chain[1..];
    var more := ListText(rest);
    ListStep(lead, chain);
    if rest == [] {
      LastOfList(chain);
    } else {
      TailIsListText(rest);
      SurvivesRest(chain);
      HashedRest(chain);
      ListSurvives(",", rest);
      BehindFirst(chain);
      if Paired(block.txs) {
        PairedIsRead(block, more);
      } else if ListIsRead(lead, chain) {
        if CutAt(block, more) > |PrintBlock(block)| {
          CutTooLate(chain, |chain| - 1);
        } else {
          ReadIsPaired(block, more);
        }
      }
    }
  }

  lemma LastOfList(chain: seq<Block>)
    requires |chain| == 1 && HashedBlocks(chain)
    ensures ListText(chain[1..]) == "]}"
    ensures ParseBlock(CutOut(chain[0], "]}")) == Ok(chain[0]) <==> ChainSurvives(chain)
    ensures ParseBlocks(LeftOver(chain[0], "]}"), 0) == Ok(chain[1..])
  {
    hide ParseBlock, PrintBlock, HashedBlock, CutOut, LeftOver, Survive;
    LastBlockExactly(chain[0]);
  }

  lemma BehindFirst(chain: seq<Block>)
    requires |chain| > 1
    ensures ListIsRead(",", chain[1..]) <==> ParseBlocks(ListText(chain[1..]), |chain| - 1) == Ok(chain[1..])
  {
    hide PrintBlock, ParseBlocks;
    var rest := chain[1..];
    Assoc(",", PrintBlock(rest[0]), ListText(rest[1..]));
  }

  lemma SurvivesRest(chain: seq<Block>)
    requires |chain| > 1
    ensures ChainSurvives(chain) <==> Paired(chain[0].txs) && ChainSurvives(chain[1..])
  {
    hide Paired, Survive;
    var rest := chain[1..];
    assert rest[|rest| - 1] == chain[|chain| - 1];
    assert forall i | 0 <= i < |rest| :: rest[i] == chain[i + 1];
    if Paired(chain[0].txs) && ChainSurvives(rest) {
      forall i | 0 <= i < |chain| - 1 ensures Paired(chain[i].txs) {
        if i > 0 { assert rest[i - 1] == chain[i]; }
      }
    }
  }

  lemma HashedRest(chain: seq<Block>)
    requires chain != [] && HashedBlocks(chain)
    ensures HashedBlocks(chain[1..])
  {
    hide HashedBlock;
    assert forall i | 0 <= i < |chain[1..]| :: chain[1..][i] == chain[i + 1];
  }

  /**
   A chain comes back if and only if the braces of all its transactions are in
   pairs, but for the very last, in which some may stay open.
   */
  lemma ChainSurvivesExactly(chain: seq<Block>)
    requires 1 <= |chain| <= MAX_BLOCKS && HashedBlocks(chain)
    ensures '\0' !in PrintChain(chain)
    ensures ParseChain(PrintChain(chain)) == Ok(chain) <==> ChainSurvives(chain)
  {
    hide ParseChain, ParseBlocks, PrintChain, PrintBlock, ListText, HashedBlock, ChainSurvives, ChainStart, Join;
    PrintChainFits(chain);
    ChainStartText(chain);
    BlockListFits(chain);
    var items := BlockTexts(chain);
    var v: CString := "[" + (Join(items) + "]}");
    OpenChainReads(chain, v);
    JoinIsListText(chain);
    ListSurvives("", chain);
    assert v[1..] == "" + (PrintBlock(chain[0]) + ListText(chain[1..]));
  }

  lemma {:induction false} JoinIsListText(chain: seq<Block>)
    requires chain != []
    ensures Join(BlockTexts(chain)) + "]}" == PrintBlock(chain[0]) + ListText(chain[1..])
  {
    hide PrintBlock;
    var items := BlockTexts(chain);
    JoinIsFirst(items, "]}");
    assert items[1..] == BlockTexts(chain[1..]);
    if |chain| > 1 {
      JoinIsListText(chain[1..]);
      Assoc(",", PrintBlock(chain[1]), ListText(chain[1..][1..]));
    }
  }
}
