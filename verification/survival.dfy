/**
 Exactly which lists of transactions survive the string-blind brace scan, and
 so which blocks can be relayed.
 */
module Survival {
  import opened Machine
  import opened LibC
  import opened Records
  import opened Json
  import opened JsonLaws
  import opened Scanners
  import opened ScanLaws
  import opened Protocol
  import opened BraceLaws
  import opened Codec
  import opened RoundTrip
  import opened KeyCounts
  import opened Cuts
  import opened Transport

  /** A transaction as nodes make them: signature and hash are plain, and there
      is a hash. */
  predicate Hashed(tx: Tx) { PlainText(tx.signature) && PlainText(tx.txHash) && tx.txHash != "" }

  predicate AllHashed(txs: seq<Tx>) { forall i | 0 <= i < |txs| :: Hashed(txs[i]) }

  /** Braces in pairs, but in the last transaction some may stay open. */
  predicate Survive(txs: seq<Tx>) {
    && (forall i | 0 <= i < |txs| - 1 :: Balanced(txs[i].sender + txs[i].receiver))
    && (txs != [] ==> BraceRun(txs[|txs| - 1].sender + txs[|txs| - 1].receiver, 1).Some?)
  }

  // Where the scan cuts

  /** How deep the scan is behind the addresses of a transaction. */
  function Depth(tx: Tx): Option<int> { BraceRun(tx.sender + tx.receiver, 1) }

  function Body(tx: Tx): string { Fields(TxFields(Escape(tx.sender), Escape(tx.receiver), tx)) }

  lemma BodyDepth(tx: Tx)
    requires NoBraces(tx.signature) && NoBraces(tx.txHash)
    ensures BraceRun(Body(tx), 1) == Depth(tx)
  {
    TxBraces(tx);
  }

  lemma CutOf(tx: Tx, more: string)
    requires NoBraces(tx.signature) && NoBraces(tx.txHash) && Depth(tx).Some?
    ensures BraceEnd(PrintTx(tx) + more, 0) == 1 + |Body(tx)| + BraceEnd("}" + more, Depth(tx).value)
    ensures |PrintTx(tx)| == |Body(tx)| + 2
  {
    hide Body, BraceEnd;
    BodyDepth(tx);
    BehindOpenBrace(Body(tx), "}" + more);
    PrintedBody(tx, more);
    PrintedLength(tx);
  }

  lemma PrintedLength(tx: Tx)
    ensures |PrintTx(tx)| == |Body(tx)| + 2
  {
  }

  lemma BehindClosing(more: string, depth: int)
    requires depth > 0
    ensures BraceEnd("}" + more, depth) == if depth == 1 || more == "" then 1 else 1 + BraceEnd(more, depth - 1)
  {
    assert ("}" + more)[1..] == more;
  }

  /** Braces in pairs give the exact cut, and braces that stay open one that is
      no shorter. */
  lemma LongCut(tx: Tx, more: string)
    requires NoBraces(tx.signature) && NoBraces(tx.txHash) && Depth(tx).Some?
    ensures BraceEnd(PrintTx(tx) + more, 0) >= |PrintTx(tx)|
    ensures Depth(tx) == Some(1) ==> BraceEnd(PrintTx(tx) + more, 0) == |PrintTx(tx)|
  {
    hide Body, PrintTx;
    RunStaysOpen(tx.sender + tx.receiver, 1);
    CutOf(tx, more);
    BehindClosing(more, Depth(tx).value);
  }

  /** The text that begins the next transaction of a list. */
  function NextStart(): string { ",{\"sender\":" }

  /** With braces open, the cut takes in the sender of the transaction behind. */
  lemma LongerCut(tx: Tx, y: string)
    requires NoBraces(tx.signature) && NoBraces(tx.txHash) && Depth(tx).Some? && Depth(tx) != Some(1) && y != ""
    ensures BraceEnd(PrintTx(tx) + (NextStart() + y), 0) >= |PrintTx(tx)| + |NextStart()|
  {
    hide Body, PrintTx, NextStart;
    var d := Depth(tx).value;
    RunStaysOpen(tx.sender + tx.receiver, 1);
    CutOf(tx, NextStart() + y);
    BehindClosing(NextStart() + y, d);
    StartRun(d - 1);
    BraceEndPast(NextStart(), y, d - 1);
  }

  lemma PrintedBody(tx: Tx, more: string)
    ensures PrintTx(tx) + more == "{" + Body(tx) + ("}" + more)
  {
    Assoc("{" + Body(tx), "}", more);
  }

  lemma StartRun(depth: int)
    requires depth > 0
    ensures BraceRun(NextStart(), depth) == Some(depth + 1) && NextStart() != ""
  {
    OpenRun(depth);
    NoBracesRun("\"sender\":", depth + 1);
    BraceRunConcat(",{", "\"sender\":", depth);
    assert ",{" + "\"sender\":" == NextStart();
  }

  lemma OpenRun(depth: int)
    requires depth > 0
    ensures BraceRun(",{", depth) == Some(depth + 1)
  {
    assert "{"[1..] == "";
    assert BraceRun("{", depth) == Some(depth + 1);
    assert ",{"[1..] == "{";
  }

  function SenderHead(): string { "\"sender\":\"" }

  function ReceiverHead(): string { "\",\"receiver\":\"" }

  lemma HeadsHaveNoBraces()
    ensures NoBraces(SenderHead()) && NoBraces(ReceiverHead())
  {
  }

  lemma UptoParts(k: string, q: string, s: string, c: string, r: string)
    ensures k + (q + s + q) + c + r + q == (k + q) + s + (q + c + r + q)
  {
    var front := k + q + s;
    Assoc(k, q, s);
    Assoc(k, q + s, q);
    Assoc(front, q, c);
    Assoc(front, q + c, r);
    Assoc(front, q + c + r, q);
  }

  lemma UptoText(s: string)
    ensures Upto(s) == SenderHead() + s + ReceiverHead()
  {
    var k, q, c, r := "\"sender\":", "\"", ",", "\"receiver\":";
    assert "\"" + "sender" + "\":" == k;
    assert k + q == SenderHead();
    assert q + c + r + q == ReceiverHead();
    UptoParts(k, q, s, c, r);
  }

  lemma BodyParts(tx: Tx)
    ensures var s, r := Escape(tx.sender), Escape(tx.receiver);
            && Body(tx) == Upto(s) + r + After(tx)
            && Body(tx) == SenderHead() + s + (ReceiverHead() + r + After(tx))
  {
    hide Upto, After, SenderHead, ReceiverHead;
    var s, r := Escape(tx.sender), Escape(tx.receiver);
    TxParts(s, r, tx);
    UptoText(s);
    Assoc(SenderHead() + s, ReceiverHead(), r);
    Assoc(SenderHead() + s, ReceiverHead() + r, After(tx));
  }

  /** A closing brace too many makes the cut too short, and nothing complete is
      left of the transaction. */
  lemma ShortCut(tx: Tx, more: string)
    requires NoBraces(tx.signature) && NoBraces(tx.txHash) && Depth(tx).None?
    requires '\0' !in PrintTx(tx) + more
    ensures var text := PrintTx(tx) + more;
            var cut := text[..BraceEnd(text, 0)];
            '\0' !in cut && !ParseTx(cut).1
  {
    hide ParseTx, BraceEnd, PrintTx;
    BraceRunConcat(tx.sender, tx.receiver, 1);
    if BraceRun(tx.sender, 1).None? { CutInSender(tx, more); } else { CutInReceiver(tx, more); }
  }

  lemma CutInSender(tx: Tx, more: string)
    requires BraceRun(tx.sender, 1).None? && '\0' !in PrintTx(tx) + more
    ensures var text := PrintTx(tx) + more; !ParseTx(text[..BraceEnd(text, 0)]).1
  {
    hide ParseTx, BraceEnd, PrintTx, Body, After, SenderHead, ReceiverHead;
    var s, middle := Escape(tx.sender), ReceiverHead() + Escape(tx.receiver) + After(tx);
    PrintedBody(tx, more);
    BodyParts(tx);
    CutText3(SenderHead(), s, middle, "}" + more);
    EscapeKeepsBraces(tx.sender, 1);
    EscapeIsGuarded(tx.sender);
    HeadsHaveNoBraces();
    NoBracesRun(SenderHead(), 1);
    var n := CutBehind(SenderHead(), s, middle + ("}" + more), 1);
    GuardedPrefix(s[..n], s);
    var text := PrintTx(tx) + more;
    SenderCutIsRefused(s[..n], text[..BraceEnd(text, 0)]);
  }

  lemma CutInReceiver(tx: Tx, more: string)
    requires BraceRun(tx.sender, 1).Some? && BraceRun(tx.receiver, BraceRun(tx.sender, 1).value).None?
    requires '\0' !in PrintTx(tx) + more
    ensures var text := PrintTx(tx) + more; !ParseTx(text[..BraceEnd(text, 0)]).1
  {
    hide ParseTx, BraceEnd, PrintTx, Body, After, Upto;
    var head, r, depth := Upto(Escape(tx.sender)), Escape(tx.receiver), BraceRun(tx.sender, 1).value;
    PrintedBody(tx, more);
    BodyParts(tx);
    CutText3(head, r, After(tx), "}" + more);
    UptoDepth(tx.sender);
    RunStaysOpen(tx.sender, 1);
    EscapeKeepsBraces(tx.receiver, depth);
    EscapeIsGuarded(tx.receiver);
    var n := CutBehind(head, r, After(tx) + ("}" + more), depth);
    GuardedPrefix(r[..n], r);
    var text := PrintTx(tx) + more;
    CutIsRefused(tx.sender, r[..n], text[..BraceEnd(text, 0)]);
  }

  lemma CutText3(head: string, s: string, middle: string, end: string)
    ensures "{" + (head + s + middle) + end == "{" + head + (s + (middle + end))
  {
    Assoc("{", head + s + middle, end);
    Assoc(head + s, middle, end);
    Assoc(head, s, middle + end);
    Assoc("{", head, s + (middle + end));
  }

  lemma UptoDepth(s: string)
    ensures BraceRun(Upto(Escape(s)), 1) == BraceRun(s, 1)
  {
    hide Upto, SenderHead, ReceiverHead;
    UptoText(Escape(s));
    HeadsHaveNoBraces();
    SameWithin(SenderHead(), Escape(s), ReceiverHead());
    EscapeKeepsBraces(s, 1);
  }

  /** The scan ends inside `s`. */
  lemma CutBehind(head: string, s: string, rest: string, depth: int) returns (n: nat)
    requires BraceRun(head, 1) == Some(depth) && BraceRun(s, depth).None?
    ensures n <= |s|
    ensures var text := "{" + head + (s + rest); text[..BraceEnd(text, 0)] == "{" + head + s[..n]
  {
    BraceEndsWithin(s, rest, depth);
    n := BraceEnd(s + rest, depth);
    BehindOpenBrace(head, s + rest);
    assert (s + rest)[..n] == s[..n];
  }

  /** With the receiver gone too. */
  lemma SenderCutIsRefused(cut: string, json: CString)
    requires Guarded(cut) && json == "{" + SenderHead() + cut
    ensures !ParseTx(json).1
  {
    hide ParseTx, MatchAt;
    var field: Field := ("sender", "\"" + cut);
    BothSeek("receiver");
    assert IsKey("sender") && IsKey("receiver") && |"sender"| != |"receiver"|;
    assert json == "{" + FieldText(field);
    forall i: nat ensures !MatchAt(json, i, Pattern("receiver")) && !MatchAt(json, i, SpacedPattern("receiver")) {
      NoMatchInObject(field, cut, Pattern("receiver"), i);
      NoMatchInObject(field, cut, SpacedPattern("receiver"), i);
    }
    NoReceiverIsRefused(json);
  }

  lemma NoMatchInObject(field: Field, cut: string, pattern: string, i: nat)
    requires field == ("sender", "\"" + cut) && Guarded(cut) && Seeks(pattern, "receiver")
    ensures !MatchAt("{" + FieldText(field), i, pattern)
  {
    assert IsKey("sender") && IsKey("receiver") && |"sender"| != |"receiver"|;
    if i == 0 {
      Mismatch("{" + FieldText(field), 0, pattern, 0);
    } else {
      MatchShifts("{" + FieldText(field), i, pattern);
      NoMatchInOpenField(field, cut, "receiver", pattern, i - 1);
    }
  }

  lemma NoReceiverIsRefused(json: CString)
    requires forall i: nat :: !MatchAt(json, i, Pattern("receiver")) && !MatchAt(json, i, SpacedPattern("receiver"))
    ensures !ParseTx(json).1
  {
    StrstrIsFirst(json, Pattern("receiver"));
    StrstrIsFirst(json, SpacedPattern("receiver"));
  }

  // Lists

  lemma FirstCut(lead: string, tx: Tx, more: CString)
    requires lead == "" || lead == ","
    ensures '\0' !in PrintTx(tx)
    ensures var text := PrintTx(tx) + more;
            NextObject(lead + text) == Some((text[..BraceEnd(text, 0)], text[BraceEnd(text, 0)..]))
  {
    PrintTxFits(tx);
    var text := PrintTx(tx) + more;
    assert text == ['{'] + text[1..];
    StrchrIs(lead, '{', text[1..]);
    assert lead + text == lead + ['{'] + text[1..];
    assert (lead + text)[|lead|..] == text;
  }

  /** The text behind a transaction that is not the last. */
  lemma NextStarts(items: seq<string>, tx: Tx, rest: string) returns (y: string)
    requires items != [] && items[0] == PrintTx(tx)
    ensures y != "" && Follow(items, rest) == NextStart() + y
  {
    hide Join, PrintTx;
    JoinIsFirst(items, rest);
    var z := PrintedStart(tx);
    y := z + Follow(items[1..], rest);
    StartTwice(z, Follow(items[1..], rest));
  }

  lemma PrintedStart(tx: Tx) returns (z: string)
    ensures PrintTx(tx) == "{\"sender\":" + z && z != ""
  {
    hide Body, Escape, ReceiverHead, After, TxFields;
    BodyParts(tx);
    var s, middle, k := Escape(tx.sender), ReceiverHead() + Escape(tx.receiver) + After(tx), "\"sender\":";
    z := "\"" + s + middle + "}";
    assert SenderHead() == k + "\"";
    assert "{" + k == "{\"sender\":";
    StartParts("{", k, "\"", s, middle, "}");
    PrintedBody(tx, "");
    assert PrintTx(tx) + "" == PrintTx(tx) && "}" + "" == "}";
  }

  lemma StartParts(b: string, k: string, q: string, s: string, m: string, e: string)
    ensures b + (k + q + s + m) + e == b + k + (q + s + m + e)
  {
    Assoc(k, q, s);
    Assoc(k, q + s, m);
    Assoc(b, k, q + s + m);
    Assoc(b + k, q + s + m, e);
  }

  lemma StartTwice(z: string, more: string)
    ensures "," + ("{\"sender\":" + z + more) == NextStart() + (z + more)
  {
    assert "," + "{\"sender\":" == NextStart();
    Assoc("{\"sender\":", z, more);
    Assoc(",", "{\"sender\":", z + more);
  }

  /** Text behind a list that holds no sender. */
  predicate NoSenders(rest: string) { Places("sender", rest) == 0 }

  /** The list is read back if its transactions survive. */
  lemma {:induction false} SurvivorsAreRead(lead: string, txs: TxList, rest: CString)
    requires lead == "" || lead == ","
    requires AllHashed(txs) && Survive(txs)
    ensures '\0' !in Join(TxTexts(txs)) && ParseTxs(lead + (Join(TxTexts(txs)) + rest), |txs|) == txs
    decreases |txs|
  {
    hide NextObject, ParseTx, Join, PrintTx, BraceRun, Follow, BraceEnd, Hashed;
    TextsFit(txs);
    if txs != [] {
      var items := TxTexts(txs);
      JoinIsFirst(items, rest);
      assert items[1..] == TxTexts(txs[1..]);
      FollowIsText(items, rest);
      var more: CString := Follow(items[1..], rest);
      FirstCut(lead, txs[0], more);
      if |txs| == 1 {
        LastIsRead(txs[0], more);
      } else {
        ExactIsRead(txs[0], more);
        FollowMeans(items[1..], rest);
        SurvivorsAreRead(",", txs[1..], rest);
      }
    }
  }

  lemma FollowIsText(items: seq<string>, rest: CString)
    requires items != [] && '\0' !in Join(items)
    ensures '\0' !in Follow(items[1..], rest)
  {
    hide Join, Follow;
    JoinIsFirst(items, rest);
    var more := Follow(items[1..], rest);
    assert forall c | c in more :: c in items[0] + more;
    assert forall c | c in Join(items) + rest :: c in Join(items) || c in rest;
  }

  lemma FollowMeans(items: seq<string>, rest: string)
    requires items != []
    ensures Follow(items, rest) == "," + (Join(items) + rest)
  {
  }

  lemma ExactIsRead(tx: Tx, more: CString)
    requires Hashed(tx) && Balanced(tx.sender + tx.receiver)
    ensures '\0' !in PrintTx(tx)
    ensures var text := PrintTx(tx) + more;
            && text[..BraceEnd(text, 0)] == PrintTx(tx) && text[BraceEnd(text, 0)..] == more
            && ParseTx(PrintTx(tx)) == (tx, true)
  {
    hide ParseTx, PrintTx, BraceEnd;
    LongCut(tx, more);
    WholeTx(tx);
  }

  lemma LastIsRead(tx: Tx, more: CString)
    requires Hashed(tx) && Depth(tx).Some?
    ensures '\0' !in PrintTx(tx)
    ensures var text := PrintTx(tx) + more;
            '\0' !in text[..BraceEnd(text, 0)] && ParseTx(text[..BraceEnd(text, 0)]) == (tx, true)
  {
    hide ParseTx, PrintTx, BraceEnd;
    PrintTxFits(tx);
    LongCut(tx, more);
    var text := PrintTx(tx) + more;
    var tail := text[|PrintTx(tx)|..BraceEnd(text, 0)];
    assert text[..BraceEnd(text, 0)] == PrintTx(tx) + tail;
    assert forall c | c in tail :: c in more;
    TxRoundTrip(tx, tail);
  }

  /** And if it is read back with all its hashes, its transactions survive. */
  lemma {:induction false} ReadMeansSurvived(lead: string, txs: TxList, rest: CString)
    requires lead == "" || lead == ","
    requires AllHashed(txs) && NoSenders(rest) && '\0' !in Join(TxTexts(txs))
    requires AllRead(ParseTxs(lead + (Join(TxTexts(txs)) + rest), |txs|), |txs|)
    ensures Survive(txs)
    decreases |txs|
  {
    hide NextObject, ParseTx, Join, PrintTx, BraceRun, Places, BraceEnd, Follow;
    if txs != [] {
      var items, n := TxTexts(txs), |txs|;
      var s: CString := lead + (Join(items) + rest);
      JoinIsFirst(items, rest);
      assert items[1..] == TxTexts(txs[1..]);
      FollowIsText(items, rest);
      var more: CString := Follow(items[1..], rest);
      FirstCut(lead, txs[0], more);
      var next := NextObject(s).value;
      var all, others := ParseTxs(s, n), ParseTxs(next.1, n - 1);
      assert all[0] == ParseTx(next.0).0 && all[0].txHash != "";
      assert forall k | 0 <= k < |others| :: others[k] == all[k + 1];
      IncompleteHasNoHash(next.0);
      if Depth(txs[0]).None? { ShortCut(txs[0], more); }
      assert Depth(txs[0]).Some?;
      if n > 1 {
        ListHasOneEach("sender", txs, rest);
        LeadIsNoKey("sender", lead, Join(items) + rest);
        ObjectsNeedKeys("sender", next.1, n - 1);
        ObjectKeys("sender", s);
        FirstIsExact(txs, rest, next.0);
        ExactIsRead(txs[0], more);
        TextsFit(txs[1..]);
        FollowMeans(items[1..], rest);
        ReadMeansSurvived(",", txs[1..], rest);
      }
    }
  }

  /** An object with one sender's key ends where its transaction ends. */
  lemma FirstIsExact(txs: TxList, rest: CString, cut: CString)
    requires |txs| > 1 && AllHashed(txs) && Depth(txs[0]).Some?
    requires var text := PrintTx(txs[0]) + Follow(TxTexts(txs)[1..], rest); cut == text[..BraceEnd(text, 0)]
    requires Places("sender", cut) <= 1
    ensures Balanced(txs[0].sender + txs[0].receiver)
  {
    hide PrintTx, BraceEnd, Places, Follow, NextStart, BraceRun, Join;
    var items := TxTexts(txs)[1..];
    if Depth(txs[0]) != Some(1) {
      var y := NextStarts(items, txs[1], rest);
      LongerCut(txs[0], y);
      TwoKeys(txs[0], y, cut);
      assert false;
    }
  }

  lemma TwoKeys(tx: Tx, y: string, cut: string)
    requires Hashed(tx)
    requires var text := PrintTx(tx) + (NextStart() + y); cut <= text && |cut| >= |PrintTx(tx)| + |NextStart()|
    ensures Places("sender", cut) >= 2
  {
    hide PrintTx, Places, NextStart, ParseTx;
    var front := PrintTx(tx) + NextStart();
    var tail := cut[|front|..];
    assert cut == front + tail;
    PlacesAddUp("sender", front, tail);
    PlacesAddUp("sender", PrintTx(tx), NextStart());
    TxRoundTrip(tx, "");
    assert PrintTx(tx) + "" == PrintTx(tx);
    CompleteHasKey(PrintTx(tx));
    StartHasKey();
  }

  lemma StartHasKey()
    ensures Places("sender", NextStart()) >= 1
  {
    hide Places;
    var s := NextStart();
    assert "\"" + "sender" + "\":" == "\"sender\":";
    assert s[2..2 + 9] == "\"sender\":";
    assert MatchAt(s, 2, Pattern("sender"));
    KeyIsCounted("sender", s, 2);
  }

  /** What a block's list is read as, with `rest` behind it. */
  function ReadTxs(txs: TxList, rest: CString): (r: TxList)
    ensures |r| == |txs|
  {
    TextsFit(txs);
    Padded(ParseTxs(Join(TxTexts(txs)) + rest, |txs|), |txs|)
  }

  /**
   The list of a block is read back if and only if its transactions survive;
   and if they do not, some transaction has lost its hash.
   */
  lemma ListSurvivesExactly(txs: TxList, rest: CString)
    requires AllHashed(txs) && NoSenders(rest)
    ensures ReadTxs(txs, rest) == txs <==> Survive(txs)
    ensures !Survive(txs) ==> exists k :: 0 <= k < |txs| && ReadTxs(txs, rest)[k].txHash == ""
  {
    hide ParseTxs, Join, Survive, Hashed, NoSenders;
    TextsFit(txs);
    var s: CString := Join(TxTexts(txs)) + rest;
    var got := ParseTxs(s, |txs|);
    assert "" + s == s;
    if Survive(txs) {
      SurvivorsAreRead("", txs, rest);
      assert Padded(txs, |txs|) == txs;
    } else {
      if AllRead(got, |txs|) { ReadMeansSurvived("", txs, rest); }
      HashIsLost(txs, got);
    }
  }

  lemma HashIsLost(txs: TxList, got: seq<Tx>)
    requires |got| <= |txs| && !AllRead(got, |txs|) && AllHashed(txs)
    ensures Padded(got, |txs|) != txs
    ensures exists k :: 0 <= k < |txs| && Padded(got, |txs|)[k].txHash == ""
  {
    var all := Padded(got, |txs|);
    if |got| < |txs| {
      assert all[|got|] == ZERO_TX;
    } else {
      var k :| 0 <= k < |txs| && got[k].txHash == "";
      assert all[k] == got[k];
    }
  }

  // Blocks

  lemma NothingBehind(k: nat)
    requires k <= 3
    ensures NoSenders("]}}"[..k])
  {
    forall i: nat ensures !KeyAt("sender", "]}}"[..k], i) {
      Mismatch("]}}"[..k], i, Pattern("sender"), 0);
      Mismatch("]}}"[..k], i, SpacedPattern("sender"), 0);
    }
    NowhereIsNone("sender", "]}}"[..k]);
  }

  /** The block as it is read, with its list cut out or not. */
  function ReadBlock(block: Block): Block { block.(txs := ReadTxs(block.txs, "]}")) }

  /** Of a block with plain hashes, only the list can go wrong. */
  lemma BlockReadsAs(block: Block)
    requires IsPlain(block.prevHash) && IsPlain(block.hash)
    ensures '\0' !in PrintBlock(block) && ParseBlock(PrintBlock(block)) == Ok(ReadBlock(block))
  {
    hide ParseBlock, ParseTxs, BlockHead, PrintBlock, Join;
    PrintBlockFits(block);
    TextsFit(block.txs);
    BlockOpens(block);
    var v: CString := "[" + (Join(TxTexts(block.txs)) + "]}");
    assert v[1..] == Join(TxTexts(block.txs)) + "]}";
    OpenBlockReads(block, v);
  }

  /** A block comes back if and only if its transactions survive. */
  lemma BlockSurvivesExactly(block: Block)
    requires IsPlain(block.prevHash) && IsPlain(block.hash) && AllHashed(block.txs)
    ensures '\0' !in PrintBlock(block)
    ensures ParseBlock(PrintBlock(block)) == Ok(block) <==> Survive(block.txs)
  {
    hide ParseBlock, PrintBlock, ReadTxs, Survive, AllHashed, NoSenders;
    BlockReadsAs(block);
    NothingBehind(2);
    assert "]}}"[..2] == "]}";
    ListSurvivesExactly(block.txs, "]}");
    assert ReadBlock(block) == block <==> ReadTxs(block.txs, "]}") == block.txs;
  }

  /** A payment to a closing brace does not survive, and one to an opening brace
      survives as the last of its block only. */
  lemma BracesDecide(tx: Tx)
    requires NoBraces(tx.sender)
    ensures tx.receiver == "}" ==> !Survive([tx])
    ensures tx.receiver == "{" ==> Survive([tx]) && !Survive([tx, tx])
  {
    NoBracesRun(tx.sender, 1);
    BraceRunConcat(tx.sender, tx.receiver, 1);
    assert "{"[1..] == "" && "}"[1..] == "";
    assert BraceRun("{", 1) == Some(2) && BraceRun("}", 1) == None;
    assert [tx, tx][0] == tx;
  }
}
