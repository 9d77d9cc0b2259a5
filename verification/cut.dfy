/**
 What is read of a transaction, a block or a chain whose text is cut off.
 */
module Cuts {
  import opened Machine
  import opened Decimal
  import opened LibC
  import opened Records
  import opened Blocks
  import opened Json
  import opened JsonLaws
  import opened Scanners
  import opened ScanLaws
  import opened Protocol
  import opened BraceLaws
  import opened Codec
  import opened RoundTrip
  import opened KeyLaws

  // Objects without their end

  /** An object up to the value of a last field. */
  function HeadOf(front: seq<Field>, key: string): string { OpenObject(front) + "," + "\"" + key + "\":" }

  lemma {:induction false} FieldsSnoc(front: seq<Field>, last: Field)
    requires front != []
    ensures Fields(front + [last]) == Fields(front) + "," + FieldText(last)
  {
    var all := front + [last];
    assert all[1..] == front[1..] + [last];
    if |front| == 1 {
      assert all[1..] == [last];
      assert Fields([last]) == FieldText(last);
    } else {
      FieldsSnoc(front[1..], last);
      var first, more := FieldText(front[0]) + ",", Fields(front[1..]);
      Assoc(first, more + ",", FieldText(last));
      Assoc(first, more, ",");
    }
  }

  lemma OpenSnoc(front: seq<Field>, key: string, v: string)
    requires front != []
    ensures OpenObject(front + [(key, v)]) == HeadOf(front, key) + v
  {
    FieldsSnoc(front, (key, v));
    var q := "\"" + key + "\":";
    Assoc("{", Fields(front) + ",", q + v);
    Assoc("{", Fields(front), ",");
    Assoc(OpenObject(front) + ",", q, v);
    Assoc(OpenObject(front) + "," + "\"", key, "\":");
    Assoc(OpenObject(front) + ",", "\"", key);
    Assoc(OpenObject(front) + ",", "\"" + key, "\":");
  }

  lemma PrefixBehind(a: string, b: string, k: nat)
    requires |a| <= k <= |a + b|
    ensures (a + b)[..k] == a + b[..k - |a|]
  {
  }

  /** When a text is cut before the value of a key, the value is not found. */
  lemma CutBeforeValue(front: seq<Field>, key: string, rest: string, k: nat)
    requires front != [] && Leading(front + [(key, rest)], |front|)
    requires k <= |HeadOf(front, key)| && Vouched(Unspaced, key, HeadOf(front, key) + rest)
    ensures var r := ValueOf((HeadOf(front, key) + rest)[..k], key);
            r == None || (r == Some("") && k == |HeadOf(front, key)|)
  {
    hide FindKey, ValueOf, Vouched, Leading;
    var text, fields := HeadOf(front, key) + rest, front + [(key, rest)];
    var t := text[..k];
    assert IsKey(key) by { LeadingKey(fields, |front|); }
    OpenSnoc(front, key, rest);
    OpenStands(fields, |front|, "");
    assert OpenObject(fields) + "" == text;
    var p := Strstr(text, Pattern(key)).value;
    assert |text[p..]| == |Pattern(key)| + |rest|;
    if FindKey(t, key).Some? {
      var q := FindKey(t, key).value;
      FoundSpelled(t, key);
      var pattern :| Spells(pattern, key) && MatchAt(t, q, pattern);
      MatchOfPrefix(key, pattern, text, k, q);
      StrstrIsFirst(text, Pattern(key));
      assert q == p && k == |HeadOf(front, key)|;
      ValueAtPattern(t, key, q);
      assert t[q + |pattern|..] == "";
    } else {
      NotFound(t, key);
    }
  }

  lemma LeadingKey(fields: seq<Field>, k: nat)
    requires Leading(fields, k)
    ensures IsKey(fields[k].0)
  {
  }

  lemma NotFound(t: string, key: string)
    requires FindKey(t, key).None?
    ensures ValueOf(t, key).None?
  {
  }

  lemma MatchOfPrefix(key: string, pattern: string, text: string, k: nat, q: nat)
    requires Vouched(Unspaced, key, text) && Spells(pattern, key) && k <= |text|
    requires MatchAt(text[..k], q, pattern)
    ensures pattern == Pattern(key) && MatchAt(text, q, pattern) && q + |pattern| <= k
  {
    assert text[..k] == text[0..k];
    PartMatch(text, 0, k, pattern, q);
    assert text + "" == text;
    assert AllowedAt(Unspaced, key, pattern, text + "", q);
  }

  // Transactions

  function TxFront(tx: Tx): seq<Field> { TxFields(Escape(tx.sender), Escape(tx.receiver), tx)[..5] }

  /** A printed transaction up to the string of its hash. */
  function TxHead(tx: Tx): string { HeadOf(TxFront(tx), "tx_hash") }

  lemma TxOpens(tx: Tx)
    ensures PrintTx(tx) == TxHead(tx) + ("\"" + (tx.txHash + "\"}"))
  {
    var f := TxFields(Escape(tx.sender), Escape(tx.receiver), tx);
    assert f == TxFront(tx) + [("tx_hash", Quote(tx.txHash))];
    OpenSnoc(TxFront(tx), "tx_hash", Quote(tx.txHash));
    Assoc(TxHead(tx), Quote(tx.txHash), "}");
    Assoc("\"", tx.txHash, "\"");
    Assoc("\"", tx.txHash + "\"", "}");
    Assoc(tx.txHash, "\"", "}");
  }

  lemma {:induction false} UnquoteCut(hash: string, k: nat, room: nat)
    requires IsPlain(hash) && |hash| <= room && k <= |hash + "\"}"|
    ensures Unquote((hash + "\"}")[..k], room) == hash[..if k < |hash| then k else |hash|]
  {
    var s := (hash + "\"}")[..k];
    if hash != "" && k > 0 {
      assert s[1..] == (hash[1..] + "\"}")[..k - 1];
      UnquoteCut(hash[1..], k - 1, room - 1);
      assert s[0] == hash[0] && s[0] in hash;
      var m := if k < |hash| then k else |hash|;
      assert [hash[0]] + hash[1..][..m - 1] == hash[..m];
    }
  }

  /** Cut behind the beginning of the hash, it loses no more than characters of
      the hash. */
  lemma TxCutInHash(tx: Tx, k: nat)
    requires Printable(tx) && k <= |tx.txHash + "\"}"|
    ensures var t := TxHead(tx) + ("\"" + (tx.txHash + "\"}")[..k]);
            && '\0' !in t
            && ParseTx(t) == (tx.(txHash := tx.txHash[..if k < |tx.txHash| then k else |tx.txHash|]), true)
  {
    hide GetString, GetU64, Unquote, TxHead, ParseTx, OpenObject;
    var v := "\"" + (tx.txHash + "\"}")[..k];
    var t := TxHead(tx) + v;
    CutTextIsText(tx, k);
    TxHeadOpens(tx, v);
    TxFrontReads(tx, v);
    TxHashFound(tx, v);
    UnquoteCut(tx.txHash, k, 64);
    assert v[1..] == (tx.txHash + "\"}")[..k];
    var w := tx.txHash[..if k < |tx.txHash| then k else |tx.txHash|];
    GetStringOf(t, "tx_hash", 64, v, w);
    SixReads(t, tx, w);
  }

  lemma SixReads(t: CString, tx: Tx, hash: string)
    requires GetString(t, "sender", 65) == Some(tx.sender) && GetString(t, "receiver", 65) == Some(tx.receiver)
    requires GetU64(t, "amount") == Some(tx.amount) && GetU64(t, "fee") == Some(tx.fee)
    requires GetString(t, "signature", 129) == Some(tx.signature) && GetString(t, "tx_hash", 65) == Some(hash)
    requires '\0' !in hash && |hash| <= 64
    ensures ParseTx(t) == (tx.(txHash := hash), true)
  {
    hide GetString, GetU64;
  }

  lemma TxHeadOpens(tx: Tx, v: string)
    ensures TxHead(tx) + v == OpenObject(TxFront(tx) + [("tx_hash", v)]) + ""
  {
    OpenSnoc(TxFront(tx), "tx_hash", v);
  }

  lemma CutTextIsText(tx: Tx, k: nat)
    requires k <= |tx.txHash + "\"}"|
    ensures '\0' !in TxHead(tx) + ("\"" + (tx.txHash + "\"}")[..k])
  {
    hide TxHead, PrintTx;
    TxOpens(tx);
    PrintTxFits(tx);
    var t := TxHead(tx) + ("\"" + (tx.txHash + "\"}")[..k]);
    assert forall i | 0 <= i < |t| :: t[i] == PrintTx(tx)[i];
  }

  lemma TxFrontFindable(tx: Tx, v: string, i: nat)
    requires Printable(tx) && i <= 5 && v != "" && v[0] == '\"'
    ensures Findable(TxFront(tx) + [("tx_hash", v)], i)
  {
    hide Readable, IsKey;
    var g, f := TxFront(tx) + [("tx_hash", v)], TxFields(Escape(tx.sender), Escape(tx.receiver), tx);
    TxFindable(tx, i);
    TxFindable(tx, 5);
    assert forall j | 0 <= j < 5 :: g[j] == f[j];
    assert g[5].0 == f[5].0;
  }

  lemma TxFrontReads(tx: Tx, v: string)
    requires Printable(tx) && v != "" && v[0] == '\"'
    ensures var json := OpenObject(TxFront(tx) + [("tx_hash", v)]) + "";
            && GetString(json, "sender", 65) == Some(tx.sender)
            && GetString(json, "receiver", 65) == Some(tx.receiver)
            && GetU64(json, "amount") == Some(tx.amount)
            && GetU64(json, "fee") == Some(tx.fee)
            && GetString(json, "signature", 129) == Some(tx.signature)
  {
    hide GetString, GetU64, Findable, OpenObject;
    var g := TxFront(tx) + [("tx_hash", v)];
    TxFrontFindable(tx, v, 0);
    OpenString(g, 0, "", tx.sender, 64);
    TxFrontFindable(tx, v, 1);
    OpenString(g, 1, "", tx.receiver, 64);
    TxFrontFindable(tx, v, 2);
    OpenU64(g, 2, "", tx.amount);
    TxFrontFindable(tx, v, 3);
    OpenU64(g, 3, "", tx.fee);
    TxFrontFindable(tx, v, 4);
    EscapePlain(tx.signature);
    OpenString(g, 4, "", tx.signature, 128);
  }

  lemma TxHashFound(tx: Tx, v: string)
    requires Printable(tx) && v != "" && v[0] == '\"'
    ensures ValueOf(OpenObject(TxFront(tx) + [("tx_hash", v)]) + "", "tx_hash") == Some(v)
  {
    hide Findable, OpenObject, ValueOf;
    var g := TxFront(tx) + [("tx_hash", v)];
    TxFrontFindable(tx, v, 5);
    FindsInOpen(g, 5, "");
    assert v + "" == v;
  }

  /** Cut before its hash, it has none. */
  lemma TxCutBeforeHash(tx: Tx, k: nat)
    requires Printable(tx) && k <= |TxHead(tx)|
    ensures k <= |PrintTx(tx)| && '\0' !in PrintTx(tx)[..k] && ParseTx(PrintTx(tx)[..k]).0.txHash == ""
  {
    hide GetU64, Text128At, ValueOf, TxHead, PrintTx, Vouched;
    var rest := "\"" + (tx.txHash + "\"}");
    TxOpens(tx);
    PrintTxFits(tx);
    assert rest != "" && rest[0] == '\"';
    assert Leading(TxFront(tx) + [("tx_hash", rest)], 5) by { TxFrontFindable(tx, rest, 5); }
    assert Asked(Unspaced, "tx_hash");
    TxIsVouched(Unspaced, "tx_hash", tx);
    CutTxValue(tx, rest, k);
  }

  lemma CutTxValue(tx: Tx, rest: string, k: nat)
    requires Leading(TxFront(tx) + [("tx_hash", rest)], 5) && k <= |TxHead(tx)|
    requires Vouched(Unspaced, "tx_hash", TxHead(tx) + rest)
    ensures GetString((TxHead(tx) + rest)[..k], "tx_hash", 65) == None
  {
    hide Leading, Vouched, ValueOf;
    CutBeforeValue(TxFront(tx), "tx_hash", rest, k);
  }

  /**
   A transaction whose text is cut off is read whole if no more than its last
   quote and brace are lost; otherwise it loses its hash, or the end of it.
   */
  lemma TxCut(tx: Tx, k: nat)
    requires Printable(tx) && k <= |PrintTx(tx)|
    ensures '\0' !in PrintTx(tx)[..k]
    ensures k + 2 >= |PrintTx(tx)| ==> ParseTx(PrintTx(tx)[..k]) == (tx, true)
    ensures k + 2 < |PrintTx(tx)| && tx.txHash != "" ==> ParseTx(PrintTx(tx)[..k]).0.txHash < tx.txHash
  {
    hide ParseTx, TxHead, PrintTx;
    TxOpens(tx);
    if k <= |TxHead(tx)| {
      TxCutBeforeHash(tx, k);
    } else {
      var n := k - |TxHead(tx)| - 1;
      TxCutInHash(tx, n);
      PrefixBehind(TxHead(tx), "\"" + (tx.txHash + "\"}"), k);
      assert ("\"" + (tx.txHash + "\"}"))[..n + 1] == "\"" + (tx.txHash + "\"}")[..n];
      assert tx.txHash[..|tx.txHash|] == tx.txHash;
    }
  }

  // Lists

  /** An object of a list, whole or cut off, with nothing behind it. */
  lemma CutObject(lead: string, item: string, k: nat)
    requires lead == "" || lead == ","
    requires IsObject(item) && 0 < k <= |item| && '\0' !in item
    ensures '\0' !in item[..k] && NextObject(lead + item[..k]) == Some((item[..k], ""))
  {
    hide Balanced, BraceEnd;
    var body := item[1..|item| - 1];
    CutObjectEndsLast(body, k);
    var s := item[..k];
    assert item == "{" + body + "}" && s == ['{'] + s[1..];
    StrchrIs(lead, '{', s[1..]);
    assert lead + s == lead + ['{'] + s[1..];
    assert (lead + s)[|lead|..] == s && s[..k] == s && s[k..] == "";
  }

  /** A list that is cut off inside its first object, or right behind it. */
  lemma CutFirst(lead: string, items: seq<string>, k: nat)
    requires lead == "" || lead == ","
    requires items != [] && IsObject(items[0]) && k <= |items[0]| && '\0' !in items[0]
    ensures k <= |Join(items)| && '\0' !in lead + Join(items)[..k]
    ensures NextObject(lead + Join(items)[..k]) == if k == 0 then None else Some((items[0][..k], ""))
  {
    hide NextObject, IsObject;
    JoinIsFirst(items, "");
    assert Join(items) + "" == Join(items);
    assert Join(items)[..k] == items[0][..k];
    if k == 0 { NoObject(lead); } else { CutObject(lead, items[0], k); }
  }

  lemma NoObject(lead: string)
    requires lead == "" || lead == ","
    ensures '\0' !in lead && NextObject(lead + "") == None
  {
    assert lead + "" == lead;
  }

  /** And one that is cut off further behind. */
  lemma CutBehindFirst(lead: string, items: seq<string>, k: nat)
    requires lead == "" || lead == ","
    requires items != [] && IsObject(items[0]) && |items[0]| < k <= |Join(items)| && '\0' !in Join(items)
    ensures |items| > 1 && k - |items[0]| - 1 <= |Join(items[1..])|
    ensures '\0' !in items[0] && '\0' !in lead + Join(items)[..k]
    ensures NextObject(lead + Join(items)[..k]) == Some((items[0], "," + Join(items[1..])[..k - |items[0]| - 1]))
  {
    hide NextObject, Balanced;
    JoinIsFirst(items, "");
    assert Join(items) + "" == Join(items) && Join(items[1..]) + "" == Join(items[1..]);
    var more := "," + Join(items[1..])[..k - |items[0]| - 1];
    assert Join(items)[..k] == items[0] + more;
    assert forall c | c in more :: c in Join(items) || c == ',';
    CutsObject(lead, items[0][1..|items[0]| - 1], more);
  }

  /** The last one read may have lost its hash, or the end of it. */
  predicate CutList(txs: seq<Tx>, got: seq<Tx>) {
    && |got| <= |txs|
    && (forall i | 0 <= i < |got| - 1 :: got[i] == txs[i])
    && (got != [] ==> got[|got| - 1] == txs[|got| - 1] || got[|got| - 1].txHash < txs[|got| - 1].txHash)
  }

  predicate WellFormedTxs(txs: seq<Tx>) { forall i | 0 <= i < |txs| :: WellFormedTx(txs[i]) && txs[i].txHash != "" }

  lemma HaveHashes(txs: seq<Tx>)
    requires WellFormedTxs(txs)
    ensures forall i | 0 <= i < |txs| :: txs[i].txHash != ""
  {
    hide WellFormedTx;
    forall i | 0 <= i < |txs| ensures txs[i].txHash != "" { assert WellFormedTx(txs[i]); }
  }

  lemma CutListGrows(txs: seq<Tx>, got: seq<Tx>)
    requires txs != [] && CutList(txs[1..], got)
    ensures CutList(txs, [txs[0]] + got) && ([txs[0]] + got == txs <==> got == txs[1..])
  {
    var all := [txs[0]] + got;
    assert txs == [txs[0]] + txs[1..] && all[1..] == got;
    assert forall i | 1 <= i < |txs| :: txs[i] == txs[1..][i - 1];
  }

  /** Whether a list that is cut off at `k` is read as `got`. */
  predicate ReadsCut(lead: string, txs: TxList, k: nat, got: seq<Tx>)
    requires k <= |Join(TxTexts(txs))|
  {
    var s := lead + Join(TxTexts(txs))[..k];
    '\0' !in s && got == ParseTxs(s, |txs|)
  }

  lemma TxsCutInFirst(lead: string, txs: TxList, k: nat) returns (got: seq<Tx>)
    requires lead == "" || lead == ","
    requires WellFormedTxs(txs) && txs != [] && k <= |PrintTx(txs[0])|
    ensures k <= |Join(TxTexts(txs))| && ReadsCut(lead, txs, k, got)
    ensures CutList(txs, got) && (got == txs <==> k + 2 >= |Join(TxTexts(txs))|)
  {
    hide NextObject, ParseTx, WellFormedTx, IsObject, Join, PrintTx;
    var items := TxTexts(txs);
    PrintTxIsObject(txs[0]);
    PrintTxFits(txs[0]);
    forall i | 0 <= i < |items| ensures |items[i]| > 2 { TxTextIsLong(txs[i]); }
    FollowsLonger(items, 2);
    CutFirst(lead, items, k);
    var s: CString := lead + Join(items)[..k];
    got := ParseTxs(s, |txs|);
    if k > 0 {
      WellFormedIsPrintable(txs[0]);
      TxCut(txs[0], k);
      NothingToParse(|txs| - 1);
      assert got == [ParseTx(PrintTx(txs[0])[..k]).0];
    }
  }

  /** The loop over the transactions of a list that is cut off. */
  lemma {:induction false} TxsCut(lead: string, txs: TxList, k: nat) returns (got: seq<Tx>)
    requires lead == "" || lead == ","
    requires WellFormedTxs(txs) && k <= |Join(TxTexts(txs))|
    ensures ReadsCut(lead, txs, k, got)
    ensures CutList(txs, got) && (got == txs <==> txs == [] || k + 2 >= |Join(TxTexts(txs))|)
    decreases |txs|
  {
    hide NextObject, ParseTx, WellFormedTx, IsObject, Join, PrintTx, CutList;
    var items := TxTexts(txs);
    if txs == [] {
      JoinOfNothing(items);
      assert lead + Join(items)[..k] == lead;
      got := [];
      EmptyIsCut();
    } else if k <= |PrintTx(txs[0])| {
      got := TxsCutInFirst(lead, txs, k);
    } else {
      PrintTxIsObject(txs[0]);
      TextsFit(txs);
      CutBehindFirst(lead, items, k);
      WholeTx(txs[0]);
      assert items[1..] == TxTexts(txs[1..]);
      var more := TxsCut(",", txs[1..], k - |items[0]| - 1);
      got := [txs[0]] + more;
      CutListGrows(txs, more);
      JoinIsFirst(items, "");
      assert Join(items) + "" == Join(items) && Join(items[1..]) + "" == Join(items[1..]);
    }
  }

  lemma EmptyIsCut()
    ensures CutList([], [])
  {
  }

  lemma JoinOfNothing(items: seq<string>)
    requires items == []
    ensures Join(items) == ""
  {
  }

  lemma WellFormedIsPrintable(tx: Tx)
    requires WellFormedTx(tx)
    ensures Printable(tx)
  {
  }

  lemma TxTextIsLong(tx: Tx)
    ensures |PrintTx(tx)| > 2
  {
    TxOpens(tx);
  }

  lemma NothingToParse(n: nat)
    ensures ParseTxs("", n) == []
  {
  }

  /** Behind an object that is not the last stand a comma and an object. */
  lemma FollowsLonger(items: seq<string>, n: nat)
    requires items != [] && forall i | 0 <= i < |items| :: |items[i]| > n
    ensures |items| > 1 ==> |Join(items)| > |items[0]| + n
    ensures |items| == 1 ==> |Join(items)| == |items[0]|
  {
    if |items| > 2 { assert items[1..][0] == items[1]; }
  }

  // What is hashed of a list that is cut off

  lemma {:induction false} HashesConcat(a: seq<Tx>, b: seq<Tx>)
    ensures Hashes(a + b) == Hashes(a) + Hashes(b)
  {
    if b == [] {
      assert a + b == a && Hashes(a) + "" == Hashes(a);
    } else {
      var n := |b| - 1;
      assert (a + b)[..|a + b| - 1] == a + b[..n];
      HashesConcat(a, b[..n]);
      Assoc(Hashes(a), Hashes(b[..n]), b[n].txHash);
    }
  }

  lemma {:induction false} ZerosHaveNone(n: nat)
    ensures Hashes(seq(n, _ => ZERO_TX)) == ""
  {
    if n > 0 {
      assert seq(n, _ => ZERO_TX)[..n - 1] == seq(n - 1, _ => ZERO_TX);
      ZerosHaveNone(n - 1);
    }
  }

  lemma PaddingHasNone(txs: seq<Tx>, n: nat)
    requires |txs| <= n
    ensures Hashes(Padded(txs, n)) == Hashes(txs)
  {
    HashesConcat(txs, seq(n - |txs|, _ => ZERO_TX));
    ZerosHaveNone(n - |txs|);
  }

  lemma MoreHashes(a: string, b: string)
    requires b != ""
    ensures a < a + b
  {
  }

  /** Of a list that is not read whole, the hashes end early. */
  lemma CutHashes(txs: seq<Tx>, got: seq<Tx>)
    requires CutList(txs, got) && got != txs && forall i | 0 <= i < |txs| :: txs[i].txHash != ""
    ensures Hashes(got) < Hashes(txs)
  {
    hide Hashes;
    var m := |got|;
    if m == 0 || got[m - 1] == txs[m - 1] {
      assert got == txs[..m] && txs == txs[..m] + txs[m..];
      HashesConcat(txs[..m], txs[m..]);
      SomeHash(txs[m..]);
      MoreHashes(Hashes(got), Hashes(txs[m..]));
    } else {
      assert got[..m - 1] == txs[..m - 1];
      CutHashesInLast(txs, got);
    }
  }

  lemma CutHashesInLast(txs: seq<Tx>, got: seq<Tx>)
    requires 0 < |got| <= |txs| && got[..|got| - 1] == txs[..|got| - 1]
    requires got[|got| - 1].txHash < txs[|got| - 1].txHash
    ensures Hashes(got) < Hashes(txs)
  {
    var n := |got| - 1;
    var front := txs[..n];
    assert txs == txs[..n + 1] + txs[n + 1..] && txs[..n + 1][..n] == front;
    HashesConcat(txs[..n + 1], txs[n + 1..]);
    LessBehind(Hashes(front), got[n].txHash, txs[n].txHash, Hashes(txs[n + 1..]));
  }

  lemma LessBehind(a: string, b: string, c: string, d: string)
    requires b < c
    ensures a + b < a + c + d
  {
    assert a + c + d == a + b + (c[|b|..] + d);
  }

  lemma SomeHash(txs: seq<Tx>)
    requires txs != [] && forall i | 0 <= i < |txs| :: txs[i].txHash != ""
    ensures Hashes(txs) != ""
  {
  }

  // Blocks

  function BlockFront(block: Block): seq<Field> { BlockFields(block, "")[..6] }

  /** A printed block up to the list of its transactions, and up to their number. */
  function BlockHead(block: Block): string { HeadOf(BlockFront(block), "transactions") }

  function CountHead(block: Block): string { HeadOf(BlockFields(block, "")[..5], "tx_count") }

  lemma BlockHeadOpens(block: Block, v: string)
    ensures BlockHead(block) + v == OpenObject(BlockFields(block, v))
  {
    OpenSnoc(BlockFront(block), "transactions", v);
    assert BlockFields(block, v) == BlockFront(block) + [("transactions", v)];
  }

  lemma BlockOpens(block: Block)
    ensures PrintBlock(block) == BlockHead(block) + ("[" + (Join(TxTexts(block.txs)) + "]}"))
  {
    var items := Join(TxTexts(block.txs));
    BlockHeadOpens(block, PrintTxs(block.txs));
    Assoc(BlockHead(block), PrintTxs(block.txs), "}");
    Assoc("[", items, "]");
    Assoc("[", items + "]", "}");
    Assoc(items, "]", "}");
    assert "]" + "}" == "]}";
  }

  lemma BlockHeadText(block: Block)
    ensures BlockHead(block) == CountHead(block) + (Numeral(|block.txs|) + ",\"transactions\":")
  {
    var n, f := Numeral(|block.txs|), BlockFields(block, "")[..5];
    assert BlockFront(block) == f + [("tx_count", n)];
    OpenSnoc(f, "tx_count", n);
    Assoc(CountHead(block), n, ",");
    Assoc(CountHead(block), n + ",", "\"");
    Assoc(CountHead(block), n + "," + "\"", "transactions");
    Assoc(CountHead(block), n + "," + "\"" + "transactions", "\":");
    assert "," + "\"" + "transactions" + "\":" == ",\"transactions\":";
    Assoc(n, ",", "\"");
    Assoc(n, "," + "\"", "transactions");
    Assoc(n, "," + "\"" + "transactions", "\":");
  }

  lemma BlockHeadIsText(block: Block, v: string)
    requires '\0' !in v
    ensures '\0' !in BlockHead(block) + v
  {
    hide BlockHead, Fields;
    BlockFieldsFit(block, v);
    BlockHeadOpens(block, v);
    var text := Object(BlockFields(block, v));
    assert text == BlockHead(block) + v + "}";
    assert forall i | 0 <= i < |BlockHead(block) + v| :: (BlockHead(block) + v)[i] == text[i];
  }

  /** The fields in front of the number of transactions, whatever follows them. */
  lemma BlockFrontReads(block: Block, fields: seq<Field>)
    requires IsPlain(block.prevHash) && IsPlain(block.hash)
    requires |fields| > 5 && fields[..5] == BlockFields(block, "")[..5]
    ensures var json := OpenObject(fields) + "";
            && GetU64(json, "index") == Some(block.index)
            && GetU64(json, "timestamp").Some? && ToI64(GetU64(json, "timestamp").value) == block.timestamp
            && GetString(json, "prev_hash", 65) == Some(block.prevHash)
            && GetU64(json, "nonce") == Some(block.nonce)
            && GetString(json, "hash", 65) == Some(block.hash)
  {
    hide GetString, GetU64, Findable, OpenObject, ToI64;
    var f := BlockFields(block, "");
    assert forall i | 0 <= i < 5 :: fields[i] == fields[..5][i] == f[i];
    forall i | 0 <= i < 5 ensures Findable(fields, i) {
      BlockFindable(block, "", i);
      SameFrontFindable(f, fields, i);
    }
    OpenU64(fields, 0, "", block.index);
    OpenSigned(fields, 1, "", block.timestamp);
    EscapePlain(block.prevHash);
    OpenString(fields, 2, "", block.prevHash, 64);
    OpenU64(fields, 3, "", block.nonce);
    EscapePlain(block.hash);
    OpenString(fields, 4, "", block.hash, 64);
  }

  lemma SameFrontFindable(f: seq<Field>, g: seq<Field>, k: nat)
    requires Findable(f, k) && k < |g| && forall i | 0 <= i <= k :: f[i] == g[i]
    ensures Findable(g, k)
  {
  }

  lemma FieldsRead(json: CString, block: Block, count: I32)
    requires GetU64(json, "index") == Some(block.index) && GetU64(json, "nonce") == Some(block.nonce)
    requires GetU64(json, "timestamp").Some? && ToI64(GetU64(json, "timestamp").value) == block.timestamp
    requires GetString(json, "prev_hash", 65) == Some(block.prevHash)
    requires GetString(json, "hash", 65) == Some(block.hash)
    requires GetInt(json, "tx_count") == Some(count) && count <= MAX_TX_PER_BLOCK
    ensures ParseBlock(json) == Ok(block.(txs := ParseTransactions(json, count)))
  {
    hide GetString, GetU64, GetInt, ParseTransactions, ToI64;
  }

  /** A block whose list is cut off, or is another text: all else is read. */
  lemma OpenBlockReads(block: Block, v: CString)
    requires IsPlain(block.prevHash) && IsPlain(block.hash) && v != "" && v[0] == '['
    ensures '\0' !in BlockHead(block) + v
    ensures ParseBlock(BlockHead(block) + v)
         == Ok(block.(txs := Padded(ParseTxs(v[1..], |block.txs|), |block.txs|)))
  {
    hide GetString, GetU64, GetInt, ParseTxs, ToI64, ValueOf, ParseBlock, OpenObject, Findable, BlockHead;
    var f := BlockFields(block, v);
    var json := BlockHead(block) + v;
    BlockHeadIsText(block, v);
    BlockHeadOpens(block, v);
    assert OpenObject(f) + "" == OpenObject(f) && f[..5] == BlockFields(block, "")[..5];
    BlockFrontReads(block, f);
    BlockFindable(block, v, 5);
    OpenInt(f, 5, "", |block.txs|);
    OpenListFindable(block, v);
    FindsInOpen(f, 6, "");
    assert v + "" == v;
    FieldsRead(json, block, |block.txs|);
  }

  lemma OpenListFindable(block: Block, v: string)
    requires IsPlain(block.prevHash) && IsPlain(block.hash) && v != "" && v[0] == '['
    ensures Findable(BlockFields(block, v), 6)
  {
    hide Readable;
    var f := BlockFields(block, v);
    forall i | 0 <= i < 6 ensures Readable(f[i]) { BlockFieldReadable(block, v, i); }
    BlockKeysDiffer(block, v, 6);
    BlockKeys(block, v);
    assert f[6] in f;
    ReadableParts6(f);
  }

  lemma ReadableParts6(f: seq<Field>)
    requires |f| == 7 && forall i | 0 <= i < 6 :: Readable(f[i])
    ensures forall i | 0 <= i < 6 :: IsKey(f[i].0) && SafeValue(f[i].1)
  {
  }

  // A number that is cut off

  lemma CutNumber(n: nat, k: nat)
    requires n <= 10 && k <= |Numeral(n) + ",\"transactions\":"|
    ensures var c := Strtol((Numeral(n) + ",\"transactions\":")[..k]); 0 <= c <= n
    ensures var s := (Numeral(n) + ",\"transactions\":")[..k]; SkipBlanks(s) == s
  {
    var rest := ",\"transactions\":";
    var s := (Numeral(n) + rest)[..k];
    if k >= |Numeral(n)| {
      var behind := rest[..k - |Numeral(n)|];
      assert s == Numeral(n) + behind;
      assert behind != "" ==> behind[0] == ',';
      StrtolOfNumeral(n, behind);
      NumeralIsSafe(n);
      assert s[0] == Numeral(n)[0];
    } else if n < 10 {
      assert s == "";
    } else {
      assert 10 / 10 == 1 && Numeral(10) == Numeral(1) + [DigitChar(0)];
      if k == 1 {
        assert s == Numeral(1) + "";
        StrtolOfNumeral(1, "");
      } else {
        assert s == "";
      }
    }
  }

  /** Cut in front of its number of transactions, a block has none. */
  lemma CountIsCut(block: Block, k: nat)
    requires PrintableBlock(block) && k < |CountHead(block)|
    ensures k <= |PrintBlock(block)| && '\0' !in PrintBlock(block)[..k]
    ensures GetInt(PrintBlock(block)[..k], "tx_count") == None
  {
    hide GetString, GetU64, CountHead, BlockHead, PrintBlock, Vouched, Leading, AllPrintable, ValueOf;
    var f := BlockFields(block, "")[..5];
    var rest := Numeral(|block.txs|) + ",\"transactions\":" + ("[" + (Join(TxTexts(block.txs)) + "]}"));
    PrintBlockFits(block);
    BlockOpens(block);
    BlockHeadText(block);
    Assoc(CountHead(block), Numeral(|block.txs|) + ",\"transactions\":", "[" + (Join(TxTexts(block.txs)) + "]}"));
    assert PrintBlock(block) == CountHead(block) + rest;
    CountLeads(block, rest);
    assert IsKey("tx_count");
    BlockIsVouched(Unspaced, "tx_count", block);
    CountNotFound(block, rest, k);
  }

  lemma BlockCutEarly(block: Block, k: nat)
    requires WellFormedBlock(block) && k < |CountHead(block)|
    ensures k <= |PrintBlock(block)| && '\0' !in PrintBlock(block)[..k]
    ensures ParseBlock(PrintBlock(block)[..k]) == Rejected
  {
    hide GetString, GetU64, GetInt, CountHead, PrintBlock, WellFormedBlock, PrintableBlock;
    BlockPrintable(block);
    CountIsCut(block, k);
  }

  lemma CountNotFound(block: Block, rest: string, k: nat)
    requires Leading(BlockFields(block, "")[..5] + [("tx_count", rest)], 5) && k < |CountHead(block)|
    requires Vouched(Unspaced, "tx_count", CountHead(block) + rest)
    ensures GetInt((CountHead(block) + rest)[..k], "tx_count") == None
  {
    hide Leading, Vouched, ValueOf;
    CutBeforeValue(BlockFields(block, "")[..5], "tx_count", rest, k);
  }

  lemma CountLeads(block: Block, rest: string)
    requires IsPlain(block.prevHash) && IsPlain(block.hash)
    ensures Leading(BlockFields(block, "")[..5] + [("tx_count", rest)], 5)
  {
    hide IsPlain, IsKey, SafeValue;
    var f, g := BlockFields(block, ""), BlockFields(block, "")[..5] + [("tx_count", rest)];
    BlockFindable(block, "", 5);
    assert forall i | 0 <= i < 5 :: g[i] == f[i];
  }

  lemma BlockPrintable(block: Block)
    requires WellFormedBlock(block)
    ensures PrintableBlock(block)
  {
    hide IsPlain;
    forall i | 0 <= i < |block.txs| ensures Printable(block.txs[i]) { WellFormedIsPrintable(block.txs[i]); }
  }

  /** Cut in front of its list, it is read with no transactions, whatever their
      number. */
  lemma BlockCutInCount(block: Block, k: nat) returns (n: nat)
    requires WellFormedBlock(block) && |CountHead(block)| <= k <= |BlockHead(block)|
    ensures n <= |block.txs| && k <= |PrintBlock(block)| && '\0' !in PrintBlock(block)[..k]
    ensures ParseBlock(PrintBlock(block)[..k]) == Ok(block.(txs := Padded([], n)))
  {
    hide GetString, GetU64, GetInt, ToI64, BlockHead, PrintBlock, ParseBlock, OpenObject, ValueOf, WellFormedTx, HeadOf,
         Numeral, ParseTransactions;
    BlockHeadText(block);
    var number := Numeral(|block.txs|) + ",\"transactions\":";
    var v := number[..k - |CountHead(block)|];
    var f := BlockFields(block, "")[..5];
    var g := f + [("tx_count", v)];
    PrintBlockFits(block);
    BlockOpens(block);
    PrefixBehind(CountHead(block), number, k);
    var t: CString := PrintBlock(block)[..k];
    assert t == CountHead(block) + v;
    OpenSnoc(f, "tx_count", v);
    assert OpenObject(g) + "" == t && g[..5] == f;
    BlockFrontReads(block, g);
    n := CountRead(block, v, t);
    ListNotFound(block, k);
    FieldsRead(t, block, n);
    NoListRead(t, n);
  }

  lemma CountRead(block: Block, v: string, t: CString) returns (n: nat)
    requires WellFormedBlock(block) && v <= Numeral(|block.txs|) + ",\"transactions\":"
    requires t == OpenObject(BlockFields(block, "")[..5] + [("tx_count", v)]) + ""
    ensures n <= |block.txs| && GetInt(t, "tx_count") == Some(n)
  {
    hide Leading, WellFormedTx, OpenObject, Strtol, SkipBlanks;
    var g := BlockFields(block, "")[..5] + [("tx_count", v)];
    CountLeads(block, v);
    OpenStands(g, 5, "");
    ValueWhereKeyStands(t, g[5], "");
    assert v + "" == v;
    var number := Numeral(|block.txs|) + ",\"transactions\":";
    assert v == number[..|v|];
    CutNumber(|block.txs|, |v|);
    n := Strtol(v);
    ToI32Exact(n);
  }

  /** The list itself is not found. */
  lemma ListNotFound(block: Block, k: nat)
    requires WellFormedBlock(block) && k <= |BlockHead(block)|
    ensures k <= |PrintBlock(block)|
    ensures var v := ValueOf(PrintBlock(block)[..k], "transactions"); v == None || v == Some("")
  {
    hide BlockHead, PrintBlock, Vouched, Leading, WellFormedTx, ValueOf;
    var rest := "[" + (Join(TxTexts(block.txs)) + "]}");
    BlockOpens(block);
    ListLeads(block, rest);
    BlockPrintable(block);
    assert IsKey("transactions");
    BlockIsVouched(Unspaced, "transactions", block);
    CutList6(block, rest, k);
  }

  lemma ListLeads(block: Block, rest: string)
    requires WellFormedBlock(block)
    ensures Leading(BlockFront(block) + [("transactions", rest)], 6)
  {
    hide WellFormedTx, IsKey, SafeValue;
    var f, g := BlockFields(block, "["), BlockFront(block) + [("transactions", rest)];
    OpenListFindable(block, "[");
    assert forall i | 0 <= i < 6 :: g[i] == f[i];
  }

  lemma CutList6(block: Block, rest: string, k: nat)
    requires Leading(BlockFront(block) + [("transactions", rest)], 6) && k <= |BlockHead(block)|
    requires Vouched(Unspaced, "transactions", BlockHead(block) + rest)
    ensures var v := ValueOf((BlockHead(block) + rest)[..k], "transactions"); v == None || v == Some("")
  {
    hide Leading, Vouched, ValueOf;
    CutBeforeValue(BlockFront(block), "transactions", rest, k);
  }

  lemma NoListRead(t: CString, n: nat)
    requires n <= MAX_TX_PER_BLOCK
    requires ValueOf(t, "transactions") == None || ValueOf(t, "transactions") == Some("")
    ensures ParseTransactions(t, n) == Padded([], n)
  {
    hide ValueOf;
  }

  /** Cut within its list, it is read with what is left of that. */
  lemma BlockCutInList(block: Block, k: nat) returns (got: seq<Tx>)
    requires WellFormedBlock(block) && WellFormedTxs(block.txs) && |BlockHead(block)| < k <= |PrintBlock(block)|
    ensures CutList(block.txs, got)
    ensures got == block.txs <==> block.txs == [] || k + 4 >= |PrintBlock(block)|
    ensures '\0' !in PrintBlock(block)[..k]
    ensures ParseBlock(PrintBlock(block)[..k]) == Ok(block.(txs := Padded(got, |block.txs|)))
  {
    hide ParseBlock, BlockHead, PrintBlock, WellFormedTx, Join, ParseTxs, CutList;
    var items, n := Join(TxTexts(block.txs)), |block.txs|;
    var list, m := "[" + (items + "]}"), k - |BlockHead(block)| - 1;
    BlockOpens(block);
    PrintBlockFits(block);
    TextsFit(block.txs);
    PrefixBehind(BlockHead(block), list, k);
    var v: CString := list[..m + 1];
    assert v[1..] == (items + "]}")[..m];
    OpenBlockReads(block, v);
    got := ParseTxs(v[1..], n);
    if m <= |items| {
      assert (items + "]}")[..m] == items[..m] == "" + items[..m];
      var cut := TxsCut("", block.txs, m);
    } else {
      var rest := "]}"[..m - |items|];
      assert (items + "]}")[..m] == "" + (items + rest);
      ParsesTxs("", block.txs, rest);
      WholeIsCut(block.txs);
    }
    if block.txs == [] { assert got == []; }
  }

  lemma WholeIsCut(txs: seq<Tx>)
    ensures CutList(txs, txs)
  {
  }

  /** The block as it may be read when it is cut off. */
  predicate CutBlock(block: Block, read: Block) {
    read == block.(txs := read.txs) && (read == block || Hashes(read.txs) < Hashes(block.txs))
  }

  /**
   A block whose text is cut off is not read at all, or it has lost some of what
   is hashed, unless it is read whole: with transactions it is exactly when no
   more than the last quote and three brackets are lost.
   */
  lemma BlockCut(block: Block, k: nat)
    requires WellFormedBlock(block) && WellFormedTxs(block.txs) && k <= |PrintBlock(block)|
    ensures '\0' !in PrintBlock(block)[..k]
    ensures var r := ParseBlock(PrintBlock(block)[..k]);
            && (r == Rejected || (r.Ok? && CutBlock(block, r.value)))
            && (k + 4 >= |PrintBlock(block)| ==> r == Ok(block))
            && (k + 4 < |PrintBlock(block)| && block.txs != [] ==> r != Ok(block))
  {
    hide ParseBlock, BlockHead, CountHead, PrintBlock, WellFormedTx, Hashes;
    BlockOpens(block);
    BlockHeadText(block);
    HaveHashes(block.txs);
    if k < |CountHead(block)| {
      BlockCutEarly(block, k);
      CountStandsBack(block);
    } else if k <= |BlockHead(block)| {
      var n := BlockCutInCount(block, k);
      PaddingHasNone([], n);
      NoHashes();
      if block.txs != [] {
        SomeHash(block.txs);
        ListTextIsLong(block.txs);
      } else {
        assert Padded([], n) == [];
      }
    } else {
      var got := BlockCutInList(block, k);
      PaddingHasNone(got, |block.txs|);
      if got == block.txs {
        assert Padded(got, |block.txs|) == block.txs;
      } else {
        CutHashes(block.txs, got);
      }
    }
  }

  lemma NoHashes()
    ensures Hashes([]) == ""
  {
  }

  lemma ListTextIsLong(txs: TxList)
    requires txs != []
    ensures |Join(TxTexts(txs))| > 2
  {
    hide Join, PrintTx;
    var items := TxTexts(txs);
    JoinIsFirst(items, "");
    assert Join(items) + "" == Join(items);
    TxTextIsLong(txs[0]);
  }

  lemma CountStandsBack(block: Block)
    ensures |BlockHead(block)| >= |CountHead(block)| + 17
  {
    hide BlockHead, CountHead;
    BlockHeadText(block);
    assert |",\"transactions\":"| == 16;
  }

  /** What was hashed for the block has another hash when it is cut short behind
      the header. */
  predicate NoneShorter(sha: Hasher, block: Block) {
    forall n: nat | |Header(block)| <= n < |PreImage(block)| :: sha(PreImage(block)[..n]) != block.hash
  }

  /** Then a block that was cut off is not valid. */
  lemma CutIsInvalid(sha: Hasher, block: Block, read: Block)
    requires CutBlock(block, read) && read != block && NoneShorter(sha, block)
    ensures !BlockValid(sha, read)
  {
    hide Header, Hashes;
    assert Header(read) == Header(block) by { SameHeader(block, read); }
    var n := |PreImage(read)|;
    assert PreImage(read) == PreImage(block)[..n];
    assert sha(PreImage(block)[..n]) != block.hash;
  }

  lemma SameHeader(block: Block, read: Block)
    requires read == block.(txs := read.txs)
    ensures Header(read) == Header(block)
  {
  }
}
