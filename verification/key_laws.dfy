/**
 Where keys stand in a printed text, and what stands behind them: the key
 searches of every reader, on any part of the text, find only these places.
 */
module KeyLaws {
  import opened Machine
  import opened LibC
  import opened Decimal
  import opened Records
  import opened Json
  import opened JsonLaws
  import opened Protocol
  import opened RoundTrip

  /** Both spellings that `json_find_key` looks for. */
  predicate Spells(pattern: string, key: string) { pattern == Pattern(key) || pattern == SpacedPattern(key) }

  lemma FoundSpelled(t: string, key: string)
    requires FindKey(t, key).Some?
    ensures exists pattern :: Spells(pattern, key) && MatchAt(t, FindKey(t, key).value, pattern)
  {
    StrstrIsFirst(t, Pattern(key));
    StrstrIsFirst(t, SpacedPattern(key));
  }

  lemma ValueAtPattern(t: string, key: string, p: nat)
    requires IsKey(key) && FindKey(t, key) == Some(p) && MatchAt(t, p, Pattern(key))
    ensures ValueOf(t, key) == Some(SkipBlanks(t[p + |Pattern(key)|..]))
  {
    var rest := t[p + |Pattern(key)|..];
    assert t[p..] == t[p..p + |Pattern(key)|] + rest;
    assert t[p..] == FieldText((key, rest)) + "";
    assert rest + "" == rest;
    ValueIsBehindColon(key, t[p..], rest, "");
  }

  /** No backslash before the next quote. */
  predicate PlainRun(s: string) { s == "" || s[0] == '\"' || (s[0] != '\\' && PlainRun(s[1..])) }

  /** A string that is printed unescaped, as far as it goes. */
  predicate PlainBehind(s: string) { s == "" || (s[0] == '\"' && PlainRun(s[1..])) }

  /** Nowhere; in front of a plain string; anywhere, but not with a blank. */
  datatype Place = Nowhere | Plainly | Unspaced

  predicate Allows(place: Place, key: string, pattern: string, behind: string) {
    match place
    case Nowhere => false
    case Plainly => pattern == Pattern(key) && PlainBehind(behind)
    case Unspaced => pattern == Pattern(key)
  }

  /** If the key stands at `j`, it may stand there. */
  predicate AllowedAt(place: Place, key: string, pattern: string, text: string, j: nat) {
    MatchAt(text, j, pattern) ==> Allows(place, key, pattern, text[j + |pattern|..])
  }

  /** In `v`, wherever it is printed, the key stands only where it may. */
  ghost predicate Vouched(place: Place, key: string, v: string) {
    forall rest: string, j: nat, pattern: string | Stops(rest) && j < |v| && Spells(pattern, key) ::
      AllowedAt(place, key, pattern, v + rest, j)
  }

  lemma SpellsSeeks(pattern: string, key: string)
    requires Spells(pattern, key)
    ensures Seeks(pattern, key)
  {
    BothSeek(key);
  }

  lemma SafeIsVouched(place: Place, key: string, v: string)
    requires IsKey(key) && SafeValue(v)
    ensures Vouched(place, key, v)
  {
    forall rest: string, j: nat, pattern: string | Stops(rest) && j < |v| && Spells(pattern, key)
      ensures AllowedAt(place, key, pattern, v + rest, j)
    {
      SpellsSeeks(pattern, key);
      NoMatchInValue(v, rest, key, pattern, j);
    }
  }

  /** One text behind another, when what is behind can stop a value. */
  lemma VouchedConcat(place: Place, key: string, v: string, w: string)
    requires Vouched(place, key, v) && Vouched(place, key, w) && Stops(w) && w != ""
    ensures Vouched(place, key, v + w)
  {
    forall rest: string, j: nat, pattern: string | Stops(rest) && j < |v + w| && Spells(pattern, key)
      ensures AllowedAt(place, key, pattern, v + w + rest, j)
    {
      Assoc(v, w, rest);
      if j < |v| {
        assert AllowedAt(place, key, pattern, v + (w + rest), j);
      } else {
        AllowedBehind(place, key, pattern, v, w + rest, j - |v|);
      }
    }
  }

  lemma AllowedBehind(place: Place, key: string, pattern: string, a: string, b: string, k: nat)
    requires AllowedAt(place, key, pattern, b, k)
    ensures AllowedAt(place, key, pattern, a + b, |a| + k)
  {
    if MatchAt(a + b, |a| + k, pattern) {
      assert (a + b)[|a| + k..|a| + k + |pattern|] == b[k..k + |pattern|];
      assert (a + b)[|a| + k + |pattern|..] == b[k + |pattern|..];
    }
  }

  /** A character that begins no key may stand in front. */
  lemma VouchedBehind(place: Place, key: string, c: char, v: string)
    requires Vouched(place, key, v) && c != '\"'
    ensures Vouched(place, key, [c] + v)
  {
    forall rest: string, j: nat, pattern: string | Stops(rest) && j < |[c] + v| && Spells(pattern, key)
      ensures AllowedAt(place, key, pattern, [c] + v + rest, j)
    {
      Assoc([c], v, rest);
      if j == 0 {
        Mismatch([c] + v + rest, 0, pattern, 0);
      } else {
        AllowedBehind(place, key, pattern, [c], v + rest, j - 1);
      }
    }
  }

  lemma NothingIsVouched(place: Place, key: string)
    ensures Vouched(place, key, "")
  {
  }

  /** A single character that stops a value. */
  lemma StopIsVouched(place: Place, key: string, c: char)
    requires c != '\"'
    ensures Vouched(place, key, [c])
  {
    NothingIsVouched(place, key);
    VouchedBehind(place, key, c, "");
    assert [c] + "" == [c];
  }

  /** What the field with the key itself needs. */
  ghost predicate OwnValue(place: Place, key: string, v: string) {
    && Vouched(place, key, v)
    && forall rest: string | Stops(rest) :: Allows(place, key, Pattern(key), v + rest)
  }

  lemma NoMatchInOwnKey(key: string, v: string, rest: string, pattern: string, i: nat)
    requires IsKey(key) && Seeks(pattern, key) && 0 < i < |key| + 3
    ensures !MatchAt(FieldText((key, v)) + rest, i, pattern)
  {
    var text, n := FieldText((key, v)) + rest, |key|;
    assert text[n + 1] == '\"' && text[n + 2] == ':';
    assert forall j | 0 <= j < n :: text[1 + j] == key[j];
    if i <= n { assert text[i] == key[i - 1]; }
    assert pattern[1] == key[0];
    Mismatch(text, i, pattern, if i == n + 1 then 1 else 0);
  }

  lemma OwnKeyIsAllowed(place: Place, key: string, v: string, rest: string, pattern: string)
    requires IsKey(key) && OwnValue(place, key, v) && Stops(rest) && Spells(pattern, key)
    ensures AllowedAt(place, key, pattern, FieldText((key, v)) + rest, 0)
  {
    var text := FieldText((key, v)) + rest;
    if pattern == Pattern(key) {
      assert text[|pattern|..] == v + rest;
    } else {
      assert text[|key| + 2] == ':' && pattern[|key| + 2] == ' ';
      Mismatch(text, 0, pattern, |key| + 2);
    }
  }

  lemma FieldIsVouched(place: Place, key: string, field: Field)
    requires IsKey(key) && IsKey(field.0) && Vouched(place, key, field.1)
    requires field.0 == key ==> OwnValue(place, key, field.1)
    ensures Vouched(place, key, FieldText(field))
  {
    hide OwnValue, Allows;
    var head := "\"" + field.0 + "\":";
    forall rest: string, j: nat, pattern: string | Stops(rest) && j < |FieldText(field)| && Spells(pattern, key)
      ensures AllowedAt(place, key, pattern, FieldText(field) + rest, j)
    {
      SpellsSeeks(pattern, key);
      if j >= |head| {
        assert FieldText(field) + rest == head + (field.1 + rest);
        AllowedBehind(place, key, pattern, head, field.1 + rest, j - |head|);
      } else if field.0 != key {
        NoMatchInKey(field, rest, key, pattern, j);
      } else if j == 0 {
        OwnKeyIsAllowed(place, key, field.1, rest, pattern);
      } else {
        NoMatchInOwnKey(key, field.1, rest, pattern, j);
      }
    }
  }

  lemma CommaThen(place: Place, key: string, v: string, w: string)
    requires Vouched(place, key, v) && Vouched(place, key, w)
    ensures Vouched(place, key, v + "," + w)
  {
    VouchedBehind(place, key, ',', w);
    VouchedConcat(place, key, v, "," + w);
    Assoc(v, ",", w);
  }

  ghost predicate FieldVouched(place: Place, key: string, field: Field) {
    && IsKey(field.0) && Vouched(place, key, field.1)
    && (field.0 == key ==> OwnValue(place, key, field.1))
  }

  lemma {:induction false} FieldsAreVouched(place: Place, key: string, fields: seq<Field>)
    requires IsKey(key) && forall i | 0 <= i < |fields| :: FieldVouched(place, key, fields[i])
    ensures Vouched(place, key, Fields(fields))
  {
    hide Vouched;
    if fields == [] {
      NothingIsVouched(place, key);
    } else {
      FieldIsVouched(place, key, fields[0]);
      if |fields| > 1 {
        FieldsAreVouched(place, key, fields[1..]);
        CommaThen(place, key, FieldText(fields[0]), Fields(fields[1..]));
      }
    }
  }

  lemma BracketsAreVouched(place: Place, key: string, open: char, v: string, close: char)
    requires Vouched(place, key, v)
    requires (open == '{' && close == '}') || (open == '[' && close == ']')
    ensures Vouched(place, key, [open] + v + [close])
  {
    hide Vouched;
    StopIsVouched(place, key, close);
    VouchedConcat(place, key, v, [close]);
    VouchedBehind(place, key, open, v + [close]);
    Assoc([open], v, [close]);
  }

  lemma ObjectIsVouched(place: Place, key: string, fields: seq<Field>)
    requires IsKey(key) && forall i | 0 <= i < |fields| :: FieldVouched(place, key, fields[i])
    ensures Vouched(place, key, Object(fields))
  {
    hide Vouched;
    FieldsAreVouched(place, key, fields);
    BracketsAreVouched(place, key, '{', Fields(fields), '}');
  }

  lemma {:induction false} JoinIsVouched(place: Place, key: string, items: seq<string>)
    requires forall i | 0 <= i < |items| :: Vouched(place, key, items[i])
    ensures Vouched(place, key, Join(items))
  {
    hide Vouched;
    if items == [] {
      NothingIsVouched(place, key);
    } else if |items| > 1 {
      JoinIsVouched(place, key, items[1..]);
      CommaThen(place, key, items[0], Join(items[1..]));
    }
  }

  lemma VouchedToTheEnd(place: Place, key: string, pattern: string, t: string, j: nat)
    requires Vouched(place, key, t) && Spells(pattern, key)
    ensures AllowedAt(place, key, pattern, t, j)
  {
    assert t + "" == t;
    if j < |t| {
      assert AllowedAt(place, key, pattern, t + "", j);
    }
  }

  // Printed transactions, blocks and chains

  lemma {:induction false} PlainStringRuns(s: string, rest: string)
    requires IsPlain(s)
    ensures PlainRun(s + ("\"" + rest))
  {
    if s == "" {
      assert s + ("\"" + rest) == "\"" + rest;
    } else {
      assert (s + ("\"" + rest))[1..] == s[1..] + ("\"" + rest);
      PlainStringRuns(s[1..], rest);
    }
  }

  lemma PlainIsOwnValue(key: string, s: string)
    requires IsKey(key) && IsPlain(s)
    ensures OwnValue(Plainly, key, Quote(s))
  {
    PlainIsSafe(s);
    SafeIsVouched(Plainly, key, Quote(s));
    forall rest: string | Stops(rest) ensures Allows(Plainly, key, Pattern(key), Quote(s) + rest) {
      PlainStringRuns(s, rest);
      assert (Quote(s) + rest)[1..] == s + ("\"" + rest);
    }
  }

  lemma AnyIsOwnValue(key: string, v: string)
    requires Vouched(Unspaced, key, v)
    ensures OwnValue(Unspaced, key, v)
  {
  }

  /** The keys whose values are printed unescaped. */
  predicate PlainKey(key: string) {
    key == "signature" || key == "tx_hash" || key == "prev_hash" || key == "hash"
  }

  /** What is proved of printed texts: keys of plain strings stand in front of
      plain strings, the key of the message type stands nowhere inside, and none
      stands with a blank. */
  predicate Asked(place: Place, key: string) {
    match place
    case Nowhere => key == "type"
    case Plainly => PlainKey(key)
    case Unspaced => IsKey(key)
  }

  lemma AskedIsKey(place: Place, key: string)
    requires Asked(place, key)
    ensures IsKey(key)
  {
  }

  lemma ReadableIsVouched(place: Place, key: string, field: Field)
    requires Asked(place, key) && Readable(field)
    requires place == Nowhere ==> field.0 != "type"
    requires place == Plainly && PlainKey(field.0) ==> exists s :: field.1 == Quote(s) && IsPlain(s)
    ensures FieldVouched(place, key, field)
  {
    hide PlainKey, SafeValue, Vouched, OwnValue, IsPlain;
    AskedIsKey(place, key);
    SafeIsVouched(place, key, field.1);
    if field.0 == key {
      if place == Plainly {
        var s :| field.1 == Quote(s) && IsPlain(s);
        PlainIsOwnValue(key, s);
      } else {
        AnyIsOwnValue(key, field.1);
      }
    }
  }

  lemma TxFieldIsVouched(place: Place, key: string, tx: Tx, k: nat)
    requires Asked(place, key) && Printable(tx) && k < 6
    ensures FieldVouched(place, key, TxFields(Escape(tx.sender), Escape(tx.receiver), tx)[k])
  {
    hide FieldVouched, Readable, Escape, Numeral, IsPlain, Asked;
    var f := TxFields(Escape(tx.sender), Escape(tx.receiver), tx)[k];
    TxFieldReadable(tx, k);
    assert |"sender"| == |"amount"| == 6 && |"receiver"| == 8 && |"fee"| == 3 && |"signature"| == 9 && |"tx_hash"| == 7;
    assert |"type"| == 4 && |"prev_hash"| == 9 && |"hash"| == 4;
    assert k == 4 ==> f.1 == Quote(tx.signature);
    assert k == 5 ==> f.1 == Quote(tx.txHash);
    ReadableIsVouched(place, key, f);
  }

  lemma TxIsVouched(place: Place, key: string, tx: Tx)
    requires Asked(place, key) && Printable(tx)
    ensures Vouched(place, key, PrintTx(tx))
  {
    hide FieldVouched, Vouched, Printable, Asked;
    AskedIsKey(place, key);
    var f := TxFields(Escape(tx.sender), Escape(tx.receiver), tx);
    forall i | 0 <= i < |f| ensures FieldVouched(place, key, f[i]) { TxFieldIsVouched(place, key, tx, i); }
    ObjectIsVouched(place, key, f);
  }

  predicate AllPrintable(txs: seq<Tx>) { forall i | 0 <= i < |txs| :: Printable(txs[i]) }

  lemma TxsAreVouched(place: Place, key: string, txs: TxList)
    requires Asked(place, key) && AllPrintable(txs)
    ensures Vouched(place, key, PrintTxs(txs))
  {
    hide Vouched, Printable, PrintTx, Asked;
    forall i | 0 <= i < |txs| ensures Vouched(place, key, TxTexts(txs)[i]) { TxIsVouched(place, key, txs[i]); }
    JoinIsVouched(place, key, TxTexts(txs));
    BracketsAreVouched(place, key, '[', Join(TxTexts(txs)), ']');
  }

  /** What is printed of the block unescaped is plain. */
  predicate PrintableBlock(block: Block) {
    IsPlain(block.prevHash) && IsPlain(block.hash) && AllPrintable(block.txs)
  }

  lemma BlockFieldIsVouched(place: Place, key: string, block: Block, k: nat)
    requires Asked(place, key) && PrintableBlock(block) && k < 7
    ensures FieldVouched(place, key, BlockFields(block, PrintTxs(block.txs))[k])
  {
    hide Readable, Escape, Numeral, SignedNumeral, IsPlain, Asked, PrintTxs, AllPrintable, Vouched, OwnValue;
    var f := BlockFields(block, PrintTxs(block.txs))[k];
    assert |"index"| == |"nonce"| == 5 && |"timestamp"| == |"prev_hash"| == 9 && |"hash"| == 4;
    assert |"tx_count"| == 8 && |"transactions"| == 12 && |"type"| == 4 && |"signature"| == 9 && |"tx_hash"| == 7;
    var a, b, c, d := "timestamp", "prev_hash", "signature", "type";
    assert a[0] == 't' && b[0] == 'p' && c[0] == 's' && d[0] == 't';
    var h := "hash";
    assert h[0] == 'h';
    if k < 6 {
      BlockFieldReadable(block, PrintTxs(block.txs), k);
      assert k == 2 ==> f.1 == Quote(block.prevHash);
      assert k == 4 ==> f.1 == Quote(block.hash);
      ReadableIsVouched(place, key, f);
    } else {
      TxsAreVouched(place, key, block.txs);
      assert IsKey("transactions");
      if f.0 == key { ListOwnValue(place, key, f.1); }
    }
  }

  lemma ListOwnValue(place: Place, key: string, v: string)
    requires Asked(place, key) && key == "transactions" && Vouched(place, key, v)
    ensures OwnValue(place, key, v)
  {
    hide Vouched;
    assert |"transactions"| == 12 && |"type"| == 4 && |"signature"| == 9;
    AnyIsOwnValue(key, v);
  }

  lemma BlockIsVouched(place: Place, key: string, block: Block)
    requires Asked(place, key) && PrintableBlock(block)
    ensures Vouched(place, key, PrintBlock(block))
  {
    hide FieldVouched, Vouched, PrintableBlock, Asked, PrintTxs;
    AskedIsKey(place, key);
    var f := BlockFields(block, PrintTxs(block.txs));
    forall i | 0 <= i < |f| ensures FieldVouched(place, key, f[i]) { BlockFieldIsVouched(place, key, block, i); }
    ObjectIsVouched(place, key, f);
  }

  predicate PrintableBlocks(chain: seq<Block>) { forall i | 0 <= i < |chain| :: PrintableBlock(chain[i]) }

  lemma ChainIsVouched(place: Place, key: string, chain: seq<Block>)
    requires Asked(place, key) && PrintableBlocks(chain)
    requires place == Unspaced || (key != "length" && key != "blocks")
    ensures Vouched(place, key, PrintChain(chain))
  {
    hide Vouched, PrintableBlock, Asked, PrintBlock, OwnValue, Numeral;
    AskedIsKey(place, key);
    var items := BlockTexts(chain);
    forall i | 0 <= i < |chain| ensures Vouched(place, key, items[i]) { BlockIsVouched(place, key, chain[i]); }
    JoinIsVouched(place, key, items);
    BracketsAreVouched(place, key, '[', Join(items), ']');
    NumeralIsSafe(|chain|);
    SafeIsVouched(place, key, Numeral(|chain|));
    assert IsKey("length") && IsKey("blocks");
    if place == Unspaced {
      AnyIsOwnValue(key, Numeral(|chain|));
      AnyIsOwnValue(key, "[" + Join(items) + "]");
    }
    ObjectIsVouched(place, key, ChainFields(chain));
  }
}
