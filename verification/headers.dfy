/**
 Which headers the reader of a list of blocks can come to see, when the braces
 in the addresses of its transactions lead the scan astray.
 */
module Headers {
  import opened Machine
  import opened Decimal
  import opened LibC
  import opened Records
  import opened Json
  import opened JsonLaws
  import opened Scanners
  import opened ScanLaws
  import opened Protocol
  import opened BraceLaws
  import opened Codec
  import opened RoundTrip
  import opened KeyLaws
  import opened Clear
  import opened Cuts

  /** Braces stand nowhere but in the addresses. */
  predicate Framed(block: Block) {
    PrintableBlock(block) && NoBraces(block.prevHash) && NoBraces(block.hash)
  }

  predicate FramedBlocks(chain: seq<Block>) { forall i | 0 <= i < |chain| :: Framed(chain[i]) }

  /** The text of a list of blocks with a comma in front, up to the end of its line. */
  function Tail(chain: seq<Block>): string {
    if chain == [] then "]}}" else "," + PrintBlock(chain[0]) + Tail(chain[1..])
  }

  lemma {:induction false} TailIsText(chain: seq<Block>)
    ensures '\0' !in Tail(chain)
  {
    hide PrintBlock;
    if chain != [] {
      PrintBlockFits(chain[0]);
      TailIsText(chain[1..]);
    }
  }

  function Part(chain: seq<Block>, a: nat, b: nat): CString
    requires a <= b <= |Tail(chain)|
  {
    TailIsText(chain);
    Tail(chain)[a..b]
  }

  // Searching a part of a text

  /** The key does not stand between `a` and `b`. */
  ghost predicate NoKey(t: string, key: string, a: nat, b: nat) {
    forall pattern: string, q: nat | Spells(pattern, key) && a <= q < b :: !MatchAt(t, q, pattern)
  }

  /** Then what it is found for behind `a` it is found for behind `b`. */
  lemma ReadsBehind(t: string, key: string, a: nat, b: nat, e: nat)
    requires a <= b <= e <= |t| && NoKey(t, key, a, b)
    ensures ValueOf(t[a..e], key) == ValueOf(t[b..e], key)
  {
    hide Strstr, ValueOf, Pattern, SpacedPattern;
    assert t[a..b] + t[b..e] == t[a..e];
    SkipsPattern(t, key, Pattern(key), a, b, e);
    SkipsPattern(t, key, SpacedPattern(key), a, b, e);
    ValueBehind(t[a..b], t[b..e], key);
  }

  lemma ValueBehind(u: string, w: string, key: string)
    requires FindKey(u + w, key) == match FindKey(w, key) case None => None case Some(p) => Some(|u| + p)
    ensures ValueOf(u + w, key) == ValueOf(w, key)
  {
    hide FindKey, SkipBlanks, Strchr;
    FoundWithin(w, key);
    var p := FindKey(w, key);
    if p.Some? { DropPast(u, w, p.value); }
  }

  lemma SkipsPattern(t: string, key: string, pattern: string, a: nat, b: nat, e: nat)
    requires a <= b <= e <= |t| && NoKey(t, key, a, b) && Spells(pattern, key)
    ensures Strstr(t[a..e], pattern)
         == match Strstr(t[b..e], pattern) case None => None case Some(p) => Some(b - a + p)
  {
    hide MatchAt;
    var u, w := t[a..b], t[b..e];
    assert u + w == t[a..e];
    forall i: nat | i < |u| ensures !MatchAt(u + w, i, pattern) {
      assert !MatchAt(t, a + i, pattern);
      PartMatch(t, a, e, pattern, i);
    }
    StrstrSkips(u, w, pattern);
  }

  lemma NoQuoteNoValue(t: string, key: string)
    requires '\"' !in t
    ensures ValueOf(t, key) == None
  {
    hide MatchAt;
    forall pattern: string, i: nat | Spells(pattern, key) ensures !MatchAt(t, i, pattern) {
      Mismatch(t, i, pattern, 0);
    }
    assert Spells(Pattern(key), key) && Spells(SpacedPattern(key), key);
    StrstrIsFirst(t, Pattern(key));
    StrstrIsFirst(t, SpacedPattern(key));
  }

  // Where headers stand

  predicate HeaderKey(key: string) { key == "index" || key == "prev_hash" || key == "hash" || key == "tx_count" }

  lemma CountIsHeader()
    ensures HeaderKey("tx_count")
  {
  }

  lemma HeaderKeyIsKey(key: string)
    requires HeaderKey(key)
    ensures IsKey(key)
  {
  }

  lemma TxHasNoHeader(key: string, tx: Tx)
    requires HeaderKey(key) && Printable(tx)
    ensures Vouched(Nowhere, key, PrintTx(tx))
  {
    hide Vouched, Readable, Printable, Escape, Numeral;
    var f := TxFields(Escape(tx.sender), Escape(tx.receiver), tx);
    HeaderKeyIsKey(key);
    assert |"sender"| == |"amount"| == 6 && |"receiver"| == |"tx_count"| == 8 && |"fee"| == 3;
    assert |"signature"| == |"prev_hash"| == 9 && |"tx_hash"| == 7 && |"index"| == 5 && |"hash"| == 4;
    var a, b, c, d := "receiver", "tx_count", "signature", "prev_hash";
    assert a[0] != b[0] && c[0] != d[0];
    forall i | 0 <= i < |f| ensures FieldVouched(Nowhere, key, f[i]) {
      TxFieldReadable(tx, i);
      ReadableIsVouchedFor(key, f[i]);
    }
    ObjectIsVouched(Nowhere, key, f);
  }

  lemma ReadableIsVouchedFor(key: string, field: Field)
    requires IsKey(key) && Readable(field) && field.0 != key
    ensures FieldVouched(Nowhere, key, field)
  {
    hide Vouched, SafeValue;
    SafeIsVouched(Nowhere, key, field.1);
  }

  lemma ListHasNoHeader(key: string, txs: TxList)
    requires HeaderKey(key) && AllPrintable(txs)
    ensures Vouched(Nowhere, key, PrintTxs(txs))
  {
    hide Vouched, Printable, PrintTx, HeaderKey;
    forall i | 0 <= i < |txs| ensures Vouched(Nowhere, key, TxTexts(txs)[i]) { TxHasNoHeader(key, txs[i]); }
    JoinIsVouched(Nowhere, key, TxTexts(txs));
    BracketsAreVouched(Nowhere, key, '[', Join(TxTexts(txs)), ']');
  }

  lemma BlockIsHeadAndList(block: Block)
    ensures PrintBlock(block) == BlockHead(block) + PrintTxs(block.txs) + "}"
  {
    BlockHeadOpens(block, PrintTxs(block.txs));
  }

  /** Behind the header of the first block, up to the next, stands no header. */
  lemma {:induction false} BodyHasNoHeader(chain: seq<Block>, key: string)
    requires chain != [] && Framed(chain[0]) && HeaderKey(key)
    ensures |BlockHead(chain[0])| <= |PrintBlock(chain[0])| && |Tail(chain)| >= 2 + |PrintBlock(chain[0])|
    ensures NoKey(Tail(chain), key, 1 + |BlockHead(chain[0])|, 2 + |PrintBlock(chain[0])|)
  {
    hide NoKey, Vouched, BlockHead, PrintTxs, HeaderKey, NoBraces, AllPrintable;
    var list, rest := PrintTxs(chain[0].txs), Tail(chain[1..]);
    ListHasNoHeader(key, chain[0].txs);
    TailText(chain);
    NoKeyBetween("," + BlockHead(chain[0]), list, "}" + rest, key);
  }

  lemma {:induction false} TailText(chain: seq<Block>)
    requires chain != []
    ensures |PrintBlock(chain[0])| == |BlockHead(chain[0])| + |PrintTxs(chain[0].txs)| + 1 && |Tail(chain[1..])| > 0
    ensures Tail(chain) == "," + BlockHead(chain[0]) + (PrintTxs(chain[0].txs) + ("}" + Tail(chain[1..])))
    ensures Tail(chain[1..])[0] != '\"'
  {
    hide BlockHead, PrintBlock, PrintTxs;
    BlockIsHeadAndList(chain[0]);
    var head, list, rest := BlockHead(chain[0]), PrintTxs(chain[0].txs), Tail(chain[1..]);
    Assoc(",", head + list + "}", rest);
    Assoc(head, list, "}");
    Assoc(head, list + "}", rest);
    Assoc(list, "}", rest);
    Assoc(",", head, list + ("}" + rest));
  }

  lemma NoKeyBetween(head: string, list: string, rest: string, key: string)
    requires Vouched(Nowhere, key, list) && |rest| >= 2 && rest[0] == '}' && rest[1] != '\"'
    ensures NoKey(head + (list + rest), key, |head|, |head| + |list| + 2)
  {
    hide MatchAt, Spells;
    forall pattern: string, q: nat | Spells(pattern, key) && |head| <= q < |head| + |list| + 2
      ensures !MatchAt(head + (list + rest), q, pattern)
    {
      var j := q - |head|;
      if j < |list| {
        assert AllowedAt(Nowhere, key, pattern, list + rest, j);
      } else {
        StartsWithQuote(pattern, key);
        assert (list + rest)[j] == rest[j - |list|];
        Mismatch(list + rest, j, pattern, 0);
      }
      SuffixMatch(head, list + rest, pattern, j);
    }
  }

  lemma StartsWithQuote(pattern: string, key: string)
    requires Spells(pattern, key)
    ensures pattern != "" && pattern[0] == '\"'
  {
  }

  lemma {:induction false} FieldsHaveNoBraces(fields: seq<Field>)
    requires forall i | 0 <= i < |fields| :: IsKey(fields[i].0) && NoBraces(fields[i].1)
    ensures NoBraces(Fields(fields))
  {
    if fields != [] {
      KeyHasNoBraces(fields[0].0);
      FieldsHaveNoBraces(fields[1..]);
    }
  }

  lemma HeadHasNoBraces(block: Block)
    requires Framed(block)
    ensures BlockHead(block) != "" && '}' !in BlockHead(block) && '{' !in BlockHead(block)[1..]
  {
    hide NoBraces, IsKey;
    var f := BlockFront(block);
    BlockKeys(block, "");
    NumeralHasNoBraces(block.index);
    SignedHasNoBraces(block.timestamp);
    NumeralHasNoBraces(block.nonce);
    NumeralHasNoBraces(|block.txs|);
    QuotedHasNoBraces(block.prevHash);
    QuotedHasNoBraces(block.hash);
    assert forall i | 0 <= i < 6 :: f[i] in BlockFields(block, "");
    FieldsHaveNoBraces(f);
    OpenHasNoBraces(Fields(f), ",\"transactions\":");
    BlockHeadIs(block);
  }

  lemma BlockHeadIs(block: Block)
    ensures BlockHead(block) == "{" + (Fields(BlockFront(block)) + ",\"transactions\":")
  {
    var f := Fields(BlockFront(block));
    Assoc("{" + f, ",", "\"");
    Assoc("{" + f, "," + "\"", "transactions");
    Assoc("{" + f, "," + "\"" + "transactions", "\":");
    assert "," + "\"" + "transactions" + "\":" == ",\"transactions\":";
    Assoc("{", f, ",\"transactions\":");
  }

  lemma QuotedHasNoBraces(s: string)
    requires NoBraces(s)
    ensures NoBraces(Quote(s))
  {
  }

  lemma OpenHasNoBraces(s: string, t: string)
    requires NoBraces(s) && NoBraces(t)
    ensures '}' !in "{" + (s + t) && ("{" + (s + t))[1..] == s + t && '{' !in s + t
  {
  }

  // Reading a header

  /** The blocks agree in what a chain is linked and numbered by. */
  predicate BearsHeader(read: Block, block: Block) {
    read.index == block.index && read.prevHash == block.prevHash && read.hash == block.hash
  }

  /** The header that a reader of the text comes to see is that of `b`. */
  predicate HeaderOf(t: CString, b: Block) {
    && GetInt(t, "tx_count").Some?
    && GetU64(t, "index").Some? && b.index == ToU32(GetU64(t, "index").value)
    && GetString(t, "prev_hash", 65) == Some(b.prevHash) && GetString(t, "hash", 65) == Some(b.hash)
  }

  lemma ReadHeader(t: CString)
    requires ParseBlock(t).Ok?
    ensures HeaderOf(t, ParseBlock(t).value)
  {
    hide GetInt, GetU64, GetString, ParseTransactions, ToU32, ToI64;
  }

  lemma SameHeaderRead(s: CString, t: CString, b: Block)
    requires forall key | HeaderKey(key) :: ValueOf(s, key) == ValueOf(t, key)
    requires HeaderOf(s, b)
    ensures HeaderOf(t, b)
  {
    hide ValueOf, ToU32, ToI32, Strtol, Strtoull, Unquote;
    assert HeaderKey("tx_count") && HeaderKey("index") && HeaderKey("prev_hash") && HeaderKey("hash");
  }

  lemma NoHeaderThere(t: CString, b: Block)
    requires ValueOf(t, "tx_count").None?
    ensures !HeaderOf(t, b)
  {
    hide ValueOf, ToU32;
  }

  /** Where a block begins, its header is read, or none. */
  lemma HeaderStands(block: Block, tail: string, k: nat, b: Block)
    requires Framed(block) && k <= |PrintBlock(block) + tail| && '\0' !in (PrintBlock(block) + tail)[..k]
    requires HeaderOf((PrintBlock(block) + tail)[..k], b)
    ensures BearsHeader(b, block)
  {
    hide HeadOf, GetInt, GetU64, GetString, PrintBlock, AllPrintable, OpenObject, NoBraces;
    var t: CString := (PrintBlock(block) + tail)[..k];
    CountHeadLeads(block);
    assert k <= |PrintBlock(block)| ==> t == PrintBlock(block)[..k];
    if k < |CountHead(block)| {
      CountIsCut(block, k);
    } else {
      var v := t[|CountHead(block)|..];
      assert t == CountHead(block) + v;
      var f := BlockFields(block, "")[..5];
      var g := f + [("tx_count", v)];
      OpenSnoc(f, "tx_count", v);
      assert OpenObject(g) + "" == t && g[..5] == f;
      BlockFrontReads(block, g);
    }
  }

  lemma CountHeadLeads(block: Block)
    ensures CountHead(block) <= PrintBlock(block)
  {
    hide CountHead, BlockHead, PrintBlock;
    BlockOpens(block);
    BlockHeadText(block);
  }

  lemma {:induction false} TailBehind(chain: seq<Block>, a: nat, b: nat)
    requires chain != [] && 1 + |PrintBlock(chain[0])| <= a <= b <= |Tail(chain)|
    ensures var n := 1 + |PrintBlock(chain[0])|;
            b - n <= |Tail(chain[1..])| && Part(chain, a, b) == Part(chain[1..], a - n, b - n)
  {
    hide PrintBlock;
    SliceBehind("," + PrintBlock(chain[0]), Tail(chain[1..]), a, b);
  }

  lemma SliceBehind(s: string, t: string, a: nat, b: nat)
    requires |s| <= a <= b <= |s + t|
    ensures (s + t)[a..b] == t[a - |s|..b - |s|]
  {
  }

  lemma {:induction false} ReadsOwnHeader(chain: seq<Block>, e: nat)
    requires chain != [] && Framed(chain[0]) && 1 <= e <= |Tail(chain)| && ParseBlock(Part(chain, 1, e)).Ok?
    ensures BearsHeader(ParseBlock(Part(chain, 1, e)).value, chain[0])
  {
    hide ParseBlock, PrintBlock, Framed, HeaderOf, BearsHeader;
    ReadHeader(Part(chain, 1, e));
    OwnPart(chain, e);
    HeaderStands(chain[0], Tail(chain[1..]), e - 1, ParseBlock(Part(chain, 1, e)).value);
  }

  lemma {:induction false} OwnPart(chain: seq<Block>, e: nat)
    requires chain != [] && 1 <= e <= |Tail(chain)|
    ensures e - 1 <= |PrintBlock(chain[0]) + Tail(chain[1..])|
    ensures Part(chain, 1, e) == (PrintBlock(chain[0]) + Tail(chain[1..]))[..e - 1]
  {
    hide PrintBlock;
    Assoc(",", PrintBlock(chain[0]), Tail(chain[1..]));
  }

  /** What begins behind the header of a block is read with the next header, or not at all. */
  lemma {:induction false} ReadsNextHeader(chain: seq<Block>, a: nat, e: nat)
    requires chain != [] && FramedBlocks(chain) && a <= e <= |Tail(chain)|
    requires 1 + |BlockHead(chain[0])| <= a <= 2 + |PrintBlock(chain[0])|
    requires ParseBlock(Part(chain, a, e)).Ok?
    ensures |chain| > 1 && e > 2 + |PrintBlock(chain[0])| && BearsHeader(ParseBlock(Part(chain, a, e)).value, chain[1])
  {
    hide ParseBlock, PrintBlock, Framed, HeaderOf, BearsHeader, ValueOf, BlockHead, HeaderKey, NoKey;
    var b := ParseBlock(Part(chain, a, e)).value;
    var y := 2 + |PrintBlock(chain[0])|;
    var m := if e < y then e else y;
    CountIsHeader();
    BodyHasNoHeader(chain, "tx_count");
    forall key | HeaderKey(key) ensures ValueOf(Part(chain, a, e), key) == ValueOf(Part(chain, m, e), key) {
      BodyHasNoHeader(chain, key);
      LessHasNoKey(Tail(chain), key, 1 + |BlockHead(chain[0])|, y, a, m);
      ReadsBehind(Tail(chain), key, a, m, e);
    }
    ReadHeader(Part(chain, a, e));
    SameHeaderRead(Part(chain, a, e), Part(chain, m, e), b);
    if e <= y {
      assert Part(chain, m, e) == "";
      NoQuoteNoValue("", "tx_count");
      NoHeaderThere("", b);
    } else {
      var rest := chain[1..];
      TailBehind(chain, y, e);
      if rest == [] {
        NoQuoteNoValue(Part(rest, 1, e - y + 1), "tx_count");
        NoHeaderThere(Part(rest, 1, e - y + 1), b);
      } else {
        OwnPart(rest, e - y + 1);
        HeaderStands(rest[0], Tail(rest[1..]), e - y, b);
      }
    }
  }

  lemma LessHasNoKey(t: string, key: string, a: nat, b: nat, c: nat, d: nat)
    requires NoKey(t, key, a, b) && a <= c && d <= b
    ensures NoKey(t, key, c, d)
  {
  }

  // The scan for objects

  /** An object ends at a brace, or with the text. */
  lemma {:induction false} EndsAtBrace(s: string, depth: int)
    requires s != "" && (depth > 0 || (depth == 0 && s[0] == '{'))
    ensures BraceEnd(s, depth) == |s| || s[BraceEnd(s, depth) - 1] == '}'
  {
    var next := BraceStep(depth, s[0]);
    if next > 0 && |s| > 1 { EndsAtBrace(s[1..], next); }
  }

  /** The next object of a part of a text, from `a` to `e`. */
  predicate ObjectAt(t: string, x: nat, k: nat, a: nat, e: nat)
    requires x <= k <= |t|
  {
    && x <= a < e <= k && t[a] == '{' && '{' !in t[x..a] && '\0' !in t[x..k]
    && (e == k || t[e - 1] == '}') && NextObject(t[x..k]) == Some((t[a..e], t[e..k]))
  }

  lemma ObjectIn(s: CString) returns (i: nat, n: nat)
    requires NextObject(s).Some?
    ensures i < i + n <= |s| && s[i] == '{' && '{' !in s[..i] && (i + n == |s| || s[i + n - 1] == '}')
    ensures NextObject(s) == Some((s[i..i + n], s[i + n..]))
  {
    hide BraceEnd;
    i := Strchr(s, '{').value;
    n := BraceEnd(s[i..], 0);
    EndsAtBrace(s[i..], 0);
    assert s[i..][..n] == s[i..i + n] && s[i..][n..] == s[i + n..];
  }

  lemma ObjectStands(t: string, x: nat, k: nat) returns (a: nat, e: nat)
    requires x <= k <= |t| && '\0' !in t[x..k] && NextObject(t[x..k]).Some?
    ensures ObjectAt(t, x, k, a, e)
  {
    hide NextObject;
    var i, n := ObjectIn(t[x..k]);
    a, e := x + i, x + i + n;
    SliceOfSlice(t, x, k, 0, i);
    SliceOfSlice(t, x, k, i, i + n);
    SliceOfSlice(t, x, k, i + n, k - x);
    assert t[x..k][..i] == t[x..k][0..i] && t[x..k][i + n..] == t[x..k][i + n..k - x];
  }

  lemma StrchrSkips(s: string, t: string, c: char)
    requires c !in s
    ensures Strchr(s + t, c) == match Strchr(t, c) case None => None case Some(i) => Some(|s| + i)
  {
    match Strchr(t, c)
    case None =>
    case Some(i) =>
      assert s + t == s + t[..i] + [c] + t[i + 1..];
      StrchrIs(s + t[..i], c, t[i + 1..]);
  }

  /** What is in front of the brace does not matter. */
  lemma SameObjectBehind(t: string, x: nat, y: nat, k: nat)
    requires x <= y <= k <= |t| && '{' !in t[x..y] && '\0' !in t[x..k]
    ensures '\0' !in t[y..k] && NextObject(t[y..k]) == NextObject(t[x..k])
  {
    hide BraceEnd, Strchr;
    var s, u := t[x..y], t[y..k];
    assert s + u == t[x..k];
    StrchrSkips(s, u, '{');
    var i := Strchr(u, '{');
    if i.Some? { DropPast(s, u, i.value); }
  }

  lemma SameBlocksBehind(t: string, x: nat, y: nat, k: nat, n: nat)
    requires x <= y <= k <= |t| && '{' !in t[x..y] && '\0' !in t[x..k]
    ensures '\0' !in t[y..k] && ParseBlocks(t[y..k], n) == ParseBlocks(t[x..k], n)
  {
    hide ParseBlock, NextObject;
    SameObjectBehind(t, x, y, k);
  }

  // Which headers are read

  /** The blocks read bear the headers of some blocks of the chain, in their order. */
  predicate Follows(read: seq<Block>, chain: seq<Block>) {
    || read == []
    || (chain != [] && BearsHeader(read[0], chain[0]) && Follows(read[1..], chain[1..]))
    || (chain != [] && Follows(read, chain[1..]))
  }

  function Rest(chain: seq<Block>): seq<Block> { if chain == [] then [] else chain[1..] }

  /** What may be read from `x` on. */
  predicate ReadFrom(read: seq<Block>, chain: seq<Block>, x: nat) {
    if x > 1 then Follows(read, Rest(chain))
    else
      || read == []
      || (chain != [] && BearsHeader(read[0], chain[0]) && Follows(read[1..], chain[1..]))
  }

  lemma FollowsFrom(read: seq<Block>, chain: seq<Block>, x: nat)
    requires ReadFrom(read, chain, x)
    ensures Follows(read, chain)
  {
    hide BearsHeader;
  }

  /** A place where an object may have ended, or the start of the list. */
  predicate Between(chain: seq<Block>, x: nat, k: nat)
    requires x <= k <= |Tail(chain)|
  {
    x <= 1 || x == k || Tail(chain)[x - 1] == '}'
  }

  /** Nothing begins in front of the first block, and it ends behind its header. */
  lemma {:induction false} BraceInTail(chain: seq<Block>)
    requires chain != [] && Framed(chain[0])
    ensures |Tail(chain)| >= 2 + |PrintBlock(chain[0])| && |BlockHead(chain[0])| < |PrintBlock(chain[0])|
    ensures Tail(chain)[1] == '{' && Tail(chain)[0] == ','
    ensures forall i | 0 <= i <= |BlockHead(chain[0])| :: Tail(chain)[i] != '}'
    ensures Tail(chain)[1 + |PrintBlock(chain[0])|] != '{'
  {
    hide BlockHead, PrintTxs, Framed, PrintBlock;
    TailText(chain);
    HeadHasNoBraces(chain[0]);
    BlockHeadStarts(chain[0]);
    assert forall i | 1 <= i <= |BlockHead(chain[0])| :: Tail(chain)[i] == BlockHead(chain[0])[i - 1];
    assert chain[1..] != [] ==> Tail(chain[1..])[0] == ',';
  }

  lemma BlockHeadStarts(block: Block)
    ensures BlockHead(block) != "" && BlockHead(block)[0] == '{'
  {
    BlockHeadIs(block);
  }

  lemma NoMoreBlocks(x: nat, k: nat, n: nat)
    requires x <= k <= 3
    ensures ParseBlocks(Part([], x, k), n) == Ok([])
  {
    assert '{' !in "]}}"[x..k];
  }

  /** From the start of the list. */
  lemma {:induction false} FirstIsRead(chain: seq<Block>, x: nat, k: nat, n: nat, a: nat, e: nat)
    requires chain != [] && FramedBlocks(chain) && x <= 1 && x < k <= |Tail(chain)| && n > 0
    requires ObjectAt(Tail(chain), x, k, a, e) && ParseBlocks(Part(chain, x, k), n).Ok?
    requires ParseBlocks(Part(chain, e, k), n - 1).Ok? ==>
               ReadFrom(ParseBlocks(Part(chain, e, k), n - 1).value, chain, e)
    ensures ReadFrom(ParseBlocks(Part(chain, x, k), n).value, chain, x)
  {
    hide ParseBlock, NextObject, BearsHeader, Framed, Tail, Follows;
    BraceInTail(chain);
    assert a == 1;
    ReadsOwnHeader(chain, e);
  }

  /** From behind the header of a block. */
  lemma {:induction false} NextIsRead(chain: seq<Block>, x: nat, k: nat, n: nat, a: nat, e: nat)
    requires chain != [] && FramedBlocks(chain) && x <= k <= |Tail(chain)| && n > 0
    requires 1 + |BlockHead(chain[0])| <= a <= |PrintBlock(chain[0])|
    requires ObjectAt(Tail(chain), x, k, a, e) && ParseBlocks(Part(chain, x, k), n).Ok?
    requires ParseBlocks(Part(chain, e, k), n - 1).Ok? && e > 2 + |PrintBlock(chain[0])| ==>
               ReadFrom(ParseBlocks(Part(chain, e, k), n - 1).value, chain[1..], e - 1 - |PrintBlock(chain[0])|)
    ensures Follows(ParseBlocks(Part(chain, x, k), n).value, chain[1..])
  {
    hide ParseBlock, NextObject, BearsHeader, Framed, Tail, PrintBlock, BlockHead;
    ReadsNextHeader(chain, a, e);
  }

  lemma {:induction false} BehindTheHeader(chain: seq<Block>, x: nat, k: nat)
    requires chain != [] && Framed(chain[0]) && 1 < x < k <= |Tail(chain)| && Between(chain, x, k)
    ensures |BlockHead(chain[0])| < x - 1
  {
    hide BlockHead, PrintBlock, Tail;
    BraceInTail(chain);
  }

  lemma NothingIsRead(chain: seq<Block>, x: nat)
    ensures ReadFrom([], chain, x)
  {
  }

  lemma NoBlocksLeft(x: nat, k: nat, n: nat)
    requires x <= k <= |Tail([])|
    ensures ParseBlocks(Part([], x, k), n) == Ok([])
  {
    NoMoreBlocks(x, k, n);
  }

  lemma RestIsRead(read: seq<Block>, chain: seq<Block>, x: nat)
    requires chain != [] && x > 1 && Follows(read, chain[1..])
    ensures ReadFrom(read, chain, x)
  {
  }

  lemma {:induction false} BetweenBehind(chain: seq<Block>, x: nat, k: nat)
    requires chain != [] && 1 + |PrintBlock(chain[0])| <= x <= k <= |Tail(chain)|
    requires x == 1 + |PrintBlock(chain[0])| || Between(chain, x, k)
    ensures k - 1 - |PrintBlock(chain[0])| <= |Tail(chain[1..])|
    ensures Between(chain[1..], x - 1 - |PrintBlock(chain[0])|, k - 1 - |PrintBlock(chain[0])|)
  {
    hide PrintBlock;
    var n := 1 + |PrintBlock(chain[0])|;
    if x > n { assert Tail(chain)[x - 1] == Tail(chain[1..])[x - 1 - n]; }
  }

  /**
   Wherever the brace scan is led by the addresses, what is read of a list of
   blocks bears the headers of some of its blocks, in their order.
   */
  lemma {:induction false} HeadersFollow(chain: seq<Block>, x: nat, k: nat, n: nat)
    requires FramedBlocks(chain) && x <= k <= |Tail(chain)| && Between(chain, x, k)
    ensures var r := ParseBlocks(Part(chain, x, k), n); r.Ok? ==> ReadFrom(r.value, chain, x)
    decreases n, |chain|
  {
    hide ParseBlock, NextObject, BearsHeader, Framed, Tail, PrintBlock, BlockHead, ReadFrom, Follows;
    var r := ParseBlocks(Part(chain, x, k), n);
    if n == 0 || NextObject(Part(chain, x, k)).None? {
      NothingIsRead(chain, x);
    } else if chain == [] {
      NoBlocksLeft(x, k, n);
      NothingIsRead(chain, x);
    } else if r.Ok? {
      var a, e := ObjectStands(Tail(chain), x, k);
      var y := 1 + |PrintBlock(chain[0])|;
      if x <= 1 {
        HeadersFollow(chain, e, k, n - 1);
        FirstIsRead(chain, x, k, n, a, e);
      } else if a < y {
        BehindTheHeader(chain, x, k);
        if e > y + 1 {
          TailBehind(chain, e, k);
          BetweenBehind(chain, e, k);
          HeadersFollow(chain[1..], e - y, k - y, n - 1);
        }
        NextIsRead(chain, x, k, n, a, e);
        RestIsRead(r.value, chain, x);
      } else {
        var z := if x < y then y else x;
        assert Tail(chain)[x..z] <= Tail(chain)[x..a];
        SameBlocksBehind(Tail(chain), x, z, k, n);
        TailBehind(chain, z, k);
        BetweenBehind(chain, z, k);
        HeadersFollow(chain[1..], z - y, k - y, n);
        FollowsFrom(r.value, chain[1..], z - y);
        RestIsRead(r.value, chain, x);
      }
    }
  }
}
