/**
 Honesty whatever is typed. When receivers hold braces or backslashes that do
 not pair up, chains arrive altered; but what can be adopted of them bears the
 headers of the chain that was sent, and so it is honest too.
 */
module Altered {
  import opened Machine
  import opened LibC
  import opened Records
  import opened Blocks
  import opened Chains
  import opened Json
  import opened JsonLaws
  import opened Scanners
  import opened ScanLaws
  import opened Protocol
  import opened BraceLaws
  import opened Codec
  import opened RoundTrip
  import opened KeyLaws
  import opened Messages
  import opened Framing
  import opened Wire
  import opened Clear
  import opened Cuts
  import opened LongLines
  import opened Headers
  import opened Network
  import opened Honest
  import opened ClearNet

  // What is read of an altered chain

  lemma {:induction false} JoinIsTail(chain: seq<Block>)
    requires chain != []
    ensures Tail(chain) == "," + (Join(BlockTexts(chain)) + "]}}")
  {
    hide PrintBlock;
    var items := BlockTexts(chain);
    JoinIsFirst(items, "]}}");
    Assoc(",", PrintBlock(chain[0]), Tail(chain[1..]));
    assert items[1..] == BlockTexts(chain[1..]);
    if |chain| > 1 { JoinIsTail(chain[1..]); }
  }

  /** The payload of a response, and what is left of its line. */
  function ChainLine(chain: seq<Block>): string { PrintChain(chain) + "}" }

  lemma ChainLineText(chain: seq<Block>)
    requires chain != []
    ensures |Tail(chain)| > 0 && ChainLine(chain) == ChainStart(chain) + ("[" + Tail(chain)[1..])
  {
    hide PrintChain, ChainStart, Join;
    ChainStartText(chain);
    JoinIsTail(chain);
    var items := Join(BlockTexts(chain));
    assert Tail(chain)[1..] == items + "]}}";
    Assoc(ChainStart(chain), "[" + (items + "]}"), "}");
    Assoc("[", items + "]}", "}");
    Assoc(items, "]}", "}");
    assert "]}" + "}" == "]}}";
  }

  /** Cut in front of its list, a chain is not read. */
  lemma ChainCutEarly(chain: seq<Block>, k: nat)
    requires PrintableBlocks(chain) && k <= |ChainStart(chain)|
    ensures k <= |PrintChain(chain)| && '\0' !in PrintChain(chain)[..k]
    ensures ParseChain(PrintChain(chain)[..k]) == Rejected
  {
    hide GetInt, ValueOf, ParseBlocks, ChainStart, PrintChain, Vouched, Leading, PrintableBlock;
    var rest := "[" + (Join(BlockTexts(chain)) + "]}");
    ChainStartText(chain);
    PrintChainFits(chain);
    assert IsKey("blocks");
    ChainIsVouched(Unspaced, "blocks", chain);
    assert Leading(ChainFront(chain) + [("blocks", rest)], 1) by { OpenChainFindable(chain, rest); }
    BlocksAreCut(chain, rest, k);
  }

  lemma BlocksAreCut(chain: seq<Block>, rest: string, k: nat)
    requires Leading(ChainFront(chain) + [("blocks", rest)], 1) && k <= |ChainStart(chain)|
    requires Vouched(Unspaced, "blocks", ChainStart(chain) + rest)
    ensures var v := ValueOf((ChainStart(chain) + rest)[..k], "blocks"); v == None || v == Some("")
  {
    hide Leading, Vouched, ValueOf;
    CutBeforeValue(ChainFront(chain), "blocks", rest, k);
  }

  /** The genesis block, which nobody typed, is read whole if anything is read behind it. */
  lemma FirstIsWhole(chain: seq<Block>, k: nat, n: nat)
    requires chain != [] && WellFormedBlock(chain[0]) && 1 <= k <= |Tail(chain)|
    ensures var r := ParseBlocks(Part(chain, 1, k), n);
            r.Ok? && |r.value| > 1 ==> r.value[0] == chain[0]
  {
    hide ParseBlock, NextObject, WellFormedBlock, PrintBlock, Balanced, Tail;
    var item := PrintBlock(chain[0]);
    var t := Part(chain, 1, k);
    PrintBlockFits(chain[0]);
    PrintBlockIsObject(chain[0]);
    OwnPart(chain, k);
    if k - 1 <= |item| {
      assert t == item[..k - 1];
      if t == "" {
        NoObject("");
        assert "" + "" == t;
      } else {
        CutObject("", item, k - 1);
        assert "" + t == t;
        OneObject(t, n);
      }
    } else {
      var rest := t[|item|..];
      assert t == "" + (item + rest);
      CutsObject("", item[1..|item| - 1], rest);
      WholeBlock(chain[0]);
    }
  }

  lemma OneObject(t: CString, n: nat)
    requires NextObject(t) == Some((t, ""))
    ensures ParseBlocks(t, n).Ok? ==> |ParseBlocks(t, n).value| <= 1
  {
    hide ParseBlock;
  }

  /** The headers that are read of a chain, whole or cut off. */
  predicate HeadersOf(read: seq<Block>, chain: seq<Block>) {
    ReadFrom(read, chain, 1) && (|read| > 1 ==> chain != [] && read[0] == chain[0])
  }

  /** A chain on the common genesis block, with braces in its addresses only. */
  predicate FramedChain(chain: seq<Block>) {
    1 <= |chain| <= MAX_BLOCKS && FramedBlocks(chain) && WellFormedBlock(chain[0])
  }

  lemma ChainHeaders(chain: seq<Block>, k: nat)
    requires FramedChain(chain) && k <= |ChainLine(chain)|
    ensures '\0' !in ChainLine(chain)[..k]
    ensures var r := ParseChain(ChainLine(chain)[..k]); r.Ok? ==> HeadersOf(r.value, chain)
  {
    hide ParseChain, ParseBlocks, PrintChain, ChainStart, Tail, WellFormedBlock, Framed, ReadFrom;
    PrintChainFits(chain);
    ChainLineText(chain);
    ChainStartText(chain);
    if k <= |ChainStart(chain)| {
      AllFramed(chain);
      ChainCutEarly(chain, k);
      assert ChainLine(chain)[..k] == PrintChain(chain)[..k];
    } else {
      var m := k - |ChainStart(chain)|;
      var v: CString := "[" + Part(chain, 1, m);
      assert ChainLine(chain)[..k] == ChainStart(chain) + v && v[1..] == Part(chain, 1, m);
      OpenChainReads(chain, v);
      HeadersFollow(chain, 1, m, |chain|);
      FirstIsWhole(chain, m, |chain|);
    }
  }

  lemma AllFramed(chain: seq<Block>)
    requires FramedBlocks(chain)
    ensures PrintableBlocks(chain)
  {
    hide PrintableBlock;
    assert forall i | 0 <= i < |chain| :: Framed(chain[i]);
  }

  lemma ResponseHeaders(chain: seq<Block>, k: nat)
    requires FramedChain(chain) && 20 < k <= |Encode(ChainResponse(chain))|
    ensures '\0' !in Encode(ChainResponse(chain))[..k]
    ensures var r := Decode(Encode(ChainResponse(chain))[..k]);
            r.Ok? ==> r.value.ChainResponse? && HeadersOf(r.value.chain, chain)
  {
    hide ParseChain, ParseMsg, ParseTx, ParseBlock, PrintChain, Encode, ChainStart, PayloadEnd, FramedChain, HeadersOf;
    ResponseText(chain);
    EncodeIsText(ChainResponse(chain));
    PrefixBehind(RESPONSE_START, ChainLine(chain), k);
    var w: CString := ChainLine(chain)[..k - 20];
    PayloadStarts(chain);
    OpenResponseReads(w);
    var e := PayloadEnd(w, SCAN_START);
    assert w[..e] == ChainLine(chain)[..e];
    ChainHeaders(chain, e);
  }

  lemma PayloadStarts(chain: seq<Block>)
    ensures ChainLine(chain) != "" && ChainLine(chain)[0] == '{'
  {
  }

  lemma ReadingHeaders(chain: seq<Block>, l: Heard)
    requires FramedChain(chain) && ClearChain(chain) && l in Reading(ChainResponse(chain)) && l.Ok?
    ensures l.value.ChainResponse? && HeadersOf(l.value.chain, chain)
  {
    hide Encode, Decode, Pieces, ClearChain, FramedChain, HeadersOf, PrintChain;
    var m := ChainResponse(chain);
    ClearReading(m);
    ResponseText(chain);
    PayloadStarts(chain);
    var first := FirstPiece(Encode(m));
    assert Encode(m)[..|first|] == first;
    ResponseHeaders(chain, |first|);
  }

  // Honest chains

  predicate DistinctHashes(chain: seq<Block>) { forall i, j | 0 <= i < j < |chain| :: chain[i].hash != chain[j].hash }

  predicate Linked(chain: seq<Block>) { forall i | 1 <= i < |chain| :: chain[i].prevHash == chain[i - 1].hash }

  lemma RestIsLinked(chain: seq<Block>)
    requires chain != [] && Linked(chain)
    ensures Linked(chain[1..])
  {
    assert forall i | 0 <= i < |chain[1..]| :: chain[1..][i] == chain[i + 1];
    assert forall i | 1 <= i < |chain[1..]| :: chain[i + 1].prevHash == chain[i].hash;
  }

  lemma RestIsDistinct(chain: seq<Block>)
    requires chain != [] && DistinctHashes(chain)
    ensures DistinctHashes(chain[1..])
  {
    assert forall i | 0 <= i < |chain[1..]| :: chain[1..][i] == chain[i + 1];
  }

  lemma {:induction false} FollowsOne(read: seq<Block>, chain: seq<Block>) returns (j: nat)
    requires read != [] && Follows(read, chain)
    ensures j < |chain| && BearsHeader(read[0], chain[j])
  {
    hide BearsHeader;
    if BearsHeader(read[0], chain[0]) {
      j := 0;
    } else {
      j := FollowsOne(read, chain[1..]);
      j := j + 1;
    }
  }

  lemma SecondIsNext(read: seq<Block>, chain: seq<Block>, j: nat)
    requires Linked(read) && Linked(chain) && DistinctHashes(chain)
    requires |read| > 1 && 1 <= j < |chain| && BearsHeader(read[0], chain[0]) && BearsHeader(read[1], chain[j])
    ensures j == 1
  {
    assert chain[j - 1].hash == chain[0].hash;
  }

  /** The headers are consecutive, because they are linked and no hash returns. */
  lemma {:induction false} HeadersAreFirst(read: seq<Block>, chain: seq<Block>)
    requires ReadFrom(read, chain, 1) && Linked(read) && Linked(chain) && DistinctHashes(chain)
    ensures |read| <= |chain| && forall i | 0 <= i < |read| :: BearsHeader(read[i], chain[i])
  {
    if |read| > 1 {
      var behind, rest := read[1..], chain[1..];
      RestIsLinked(read);
      RestIsLinked(chain);
      RestIsDistinct(chain);
      if !ReadFrom(behind, rest, 1) {
        assert Follows(behind, rest[1..]);
        var j := FollowsOne(behind, rest[1..]);
        SecondIsNext(read, chain, j + 2);
      }
      HeadersAreFirst(behind, rest);
      assert forall i | 1 <= i < |read| :: read[i] == behind[i - 1] && chain[i] == rest[i - 1];
    }
  }

  lemma ValidIsLinked(sha: Hasher, chain: seq<Block>)
    requires ChainValid(sha, chain)
    ensures Linked(chain)
  {
    hide BlockValid;
    forall i | 1 <= i < |chain| ensures chain[i].prevHash == chain[i - 1].hash {
      assert LinkValid(sha, chain[i - 1], chain[i]);
    }
  }

  /** A chain with the headers of an honest one is honest, if it is valid. */
  lemma HeadersMakeHonest(sha: Hasher, g: Block, chain: seq<Block>, read: seq<Block>)
    requires HonestChain(sha, g, chain) && DistinctHashes(chain) && HeadersOf(read, chain) && Adoptable(sha, read)
    ensures HonestChain(sha, g, read)
  {
    hide LinkValid, ReadFrom, DistinctHashes, Linked;
    ValidIsLinked(sha, chain);
    ValidIsLinked(sha, read);
    HeadersAreFirst(read, chain);
    assert forall i | 0 <= i < |read| :: BearsHeader(read[i], chain[i]);
  }

  lemma DigestIsPlain(s: string)
    requires IsDigest(s)
    ensures PlainText(s)
  {
  }

  lemma HonestIsFramed(sha: Hasher, g: Block, chain: seq<Block>)
    requires IsGenesis(sha, g) && HonestChain(sha, g, chain) && ClearChain(chain)
    ensures FramedChain(chain)
  {
    hide PreImage, NonceWorks, ChainValid, PlainText, IsDigest;
    forall i | 0 <= i < |chain| ensures Framed(chain[i]) {
      ClearBlockParts(chain[i]);
      HonestHashes(sha, g, chain, i);
      DigestIsPlain(chain[i].hash);
      DigestIsPlain(chain[i].prevHash);
      PlainIsFramed(chain[i]);
    }
    HonestHashes(sha, g, chain, 0);
    DigestIsPlain(g.hash);
    DigestIsPlain(g.prevHash);
  }

  lemma PlainIsFramed(block: Block)
    requires PrintableBlock(block) && PlainText(block.hash) && PlainText(block.prevHash)
    ensures Framed(block)
  {
  }

  /** What is read of an honest chain is honest, if it can be adopted at all. */
  lemma ReadsHonest(sha: Hasher, g: Block, m: Msg, l: Heard)
    requires IsGenesis(sha, g) && ClearMsg(m) && MsgHonest(sha, g, m) && l in Reading(m)
    requires m.ChainResponse? ==> DistinctHashes(m.chain)
    ensures LineHonest(sha, g, l)
  {
    hide HonestChain, IsGenesis, FramedChain, HeadersOf, DistinctHashes, Reading, Decode, Encode, Adoptable, ClearChain;
    if l.Ok? {
      if m.ChainResponse? {
        HonestIsFramed(sha, g, m.chain);
        ReadingHeaders(m.chain, l);
        if Adoptable(sha, l.value.chain) { HeadersMakeHonest(sha, g, m.chain, l.value.chain); }
      } else {
        KindOfReading(m, l);
      }
    }
  }

  lemma KindOfReading(m: Msg, l: Heard)
    requires ClearMsg(m) && l in Reading(m) && l.Ok?
    ensures l.value.ChainResponse? <==> m.ChainResponse?
  {
    hide Reading, Decode, Encode, ClearMsg;
    ClearReading(m);
  }

  // Every step

  /** No node holds a chain of which two blocks have the same hash. */
  predicate NoHashTwice(s: Net) { forall u: nat | u < |s.peers| :: DistinctHashes(s.peers[u].chain) }

  /** One step, by anybody, whatever is typed. */
  lemma HonestyKeptWhateverIsTyped(sha: Hasher, g: Block, s: Net, a: Action)
    requires IsGenesis(sha, g) && Shaped(s) && NetHonest(sha, g, s) && ClearState(s) && NoHashTwice(s)
    requires Enabled(sha, s, a)
    ensures NetHonest(sha, g, Next(sha, s, a))
    ensures forall u | 0 <= u < |s.peers| :: Since(s.peers[u].chain, Next(sha, s, a).peers[u].chain)
  {
    hide Next, Posts, PeerHonest, LineHonest, MsgHonest, IsGenesis, ClearMsg, Reading, DistinctHashes, ClearPeer;
    var p := s.peers[Actor(s, a)];
    assert PeerHonest(sha, g, p) && DistinctHashes(p.chain);
    forall post, l | post in Posts(sha, s, a) && l in s.wire(post.1) ensures LineHonest(sha, g, l) {
      PostsAreHonest(sha, g, s, a, post);
      ClearPosts(sha, s, a, post);
      if post.1.ChainResponse? { ResponseIsHeld(sha, s, a, post); }
      ShapedReads(s, post.1);
      ReadsHonest(sha, g, post.1, l);
    }
    HonestStep(sha, g, s, a);
  }

  /** A run on which no chain that is held holds a hash twice. */
  ghost predicate NeverHashTwice(sha: Hasher, s: Net, run: seq<Action>)
    requires IsRun(sha, s, run)
    decreases |run|
  {
    NoHashTwice(s) && (run == [] || NeverHashTwice(sha, Next(sha, s, run[0]), run[1..]))
  }

  lemma {:induction false} HonestWhateverIsTyped(sha: Hasher, g: Block, s: Net, run: seq<Action>)
    requires IsGenesis(sha, g) && Shaped(s) && NetHonest(sha, g, s) && ClearState(s)
    requires IsRun(sha, s, run) && AllClear(run) && NeverHashTwice(sha, s, run)
    ensures var t := Final(sha, s, run); Shaped(t) && NetHonest(sha, g, t) && ClearState(t)
    ensures forall u | 0 <= u < |s.peers| ::
              |Final(sha, s, run).peers| == |s.peers| && Since(s.peers[u].chain, Final(sha, s, run).peers[u].chain)
    decreases |run|
  {
    hide Next, Shaped, NetHonest, ClearState, Enabled, ClearAction, NoHashTwice, IsGenesis;
    if run != [] {
      assert run[0] in run && forall a | a in run[1..] :: a in run;
      ShapeKept(sha, s, run[0]);
      ShapedWire(s);
      ClearKept(sha, s, run[0]);
      HonestyKeptWhateverIsTyped(sha, g, s, run[0]);
      PeersStay(sha, s, run[0]);
      HonestWhateverIsTyped(sha, g, Next(sha, s, run[0]), run[1..]);
    }
  }

  /**
   From a fresh start, whatever receivers are typed and whatever the wire makes
   of them: unless a chain comes to hold one hash twice, every chain held is
   honest, and so is every chain on its way that can be adopted.
   */
  lemma HonestFromTheStart(sha: Hasher, g: Block, s: Net, run: seq<Action>)
    requires Start(sha, g, s) && forall p | p in s.peers :: OneLine(p.addr)
    requires IsRun(sha, s, run) && AllClear(run) && NeverHashTwice(sha, s, run)
    ensures NetHonest(sha, g, Final(sha, s, run))
  {
    hide IsRun, Final, AllClear, NeverHashTwice, NetHonest, Shaped, OneLine, ClearState;
    StartIsHonest(sha, g, s);
    StartIsClear(sha, g, s);
    HonestWhateverIsTyped(sha, g, s, run);
  }
}
