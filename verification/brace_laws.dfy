/** Which printed texts the string-blind scan cuts at the right place. */
module BraceLaws {
  import opened Decimal
  import opened LibC
  import opened Records
  import opened Json
  import opened JsonLaws
  import opened Scanners
  import opened ScanLaws
  import opened Protocol

  /** The brace count cannot tell the two texts apart. */
  ghost predicate SameBraces(s: string, t: string) {
    forall depth: int | depth > 0 :: BraceRun(s, depth) == BraceRun(t, depth)
  }

  lemma {:induction false} RunStaysOpen(s: string, depth: int)
    requires depth > 0
    ensures BraceRun(s, depth).Some? ==> BraceRun(s, depth).value > 0
  {
    if s != "" && BraceStep(depth, s[0]) > 0 { RunStaysOpen(s[1..], BraceStep(depth, s[0])); }
  }

  lemma SameConcat(s: string, s': string, t: string, t': string)
    requires SameBraces(s, s') && SameBraces(t, t')
    ensures SameBraces(s + t, s' + t')
  {
    forall depth: int | depth > 0 ensures BraceRun(s + t, depth) == BraceRun(s' + t', depth) {
      BraceRunConcat(s, t, depth);
      BraceRunConcat(s', t', depth);
      RunStaysOpen(s, depth);
    }
  }

  lemma NoBracesIsNothing(s: string)
    requires NoBraces(s)
    ensures SameBraces(s, "")
  {
    forall depth: int | depth > 0 ensures BraceRun(s, depth) == BraceRun("", depth) {
      NoBracesRun(s, depth);
    }
  }

  /** Text without braces may stand on either side. */
  lemma SameWithin(a: string, s: string, b: string)
    requires NoBraces(a) && NoBraces(b)
    ensures SameBraces(a + s + b, s)
  {
    NoBracesIsNothing(a);
    NoBracesIsNothing(b);
    SameConcat(a, "", s, s);
    SameConcat(a + s, "" + s, b, "");
    assert "" + s + "" == s;
  }

  lemma EscapeIsSame(s: string)
    ensures SameBraces(Escape(s), s)
  {
    forall depth: int | depth > 0 ensures BraceRun(Escape(s), depth) == BraceRun(s, depth) {
      EscapeKeepsBraces(s, depth);
    }
  }

  /** The values of an object, one behind the other. */
  function Values(fields: seq<Field>): string {
    if fields == [] then "" else fields[0].1 + Values(fields[1..])
  }

  lemma {:induction false} ValuesConcat(f: seq<Field>, g: seq<Field>)
    ensures Values(f + g) == Values(f) + Values(g)
  {
    if f == [] {
      assert f + g == g;
    } else {
      assert (f + g)[1..] == f[1..] + g;
      ValuesConcat(f[1..], g);
    }
  }

  lemma {:induction false} QuietValues(fields: seq<Field>)
    requires forall i | 0 <= i < |fields| :: NoBraces(fields[i].1)
    ensures NoBraces(Values(fields))
  {
    if fields != [] { QuietValues(fields[1..]); }
  }

  lemma KeyHasNoBraces(key: string)
    requires IsKey(key)
    ensures NoBraces("\"" + key + "\":")
  {
    assert forall c | c in key :: IsKeyChar(c);
  }

  lemma {:induction false} FieldsAreTheirValues(fields: seq<Field>)
    requires forall f | f in fields :: IsKey(f.0)
    ensures SameBraces(Fields(fields), Values(fields))
  {
    if fields != [] {
      var key, v := "\"" + fields[0].0 + "\":", fields[0].1;
      KeyHasNoBraces(fields[0].0);
      SameWithin(key, v, "");
      assert key + v + "" == FieldText(fields[0]);
      if |fields| == 1 {
        assert Values(fields[1..]) == "";
        assert v + "" == v;
      } else {
        FieldsAreTheirValues(fields[1..]);
        SameWithin(key, v, ",");
        assert key + v + "," == FieldText(fields[0]) + ",";
        SameConcat(FieldText(fields[0]) + ",", v, Fields(fields[1..]), Values(fields[1..]));
      }
    }
  }

  lemma QuoteIsSame(s: string)
    ensures SameBraces(Quote(s), s)
  {
    SameWithin("\"", s, "\"");
  }

  lemma {:induction false} NumeralHasNoBraces(n: nat)
    ensures NoBraces(Numeral(n))
  {
    assert forall i | 0 <= i < |Numeral(n)| :: IsDigit(Numeral(n)[i]);
  }

  lemma SignedHasNoBraces(n: int)
    ensures NoBraces(SignedNumeral(n))
  {
    NumeralHasNoBraces(if n < 0 then -n else n);
  }

  predicate PlainText(s: string) { IsPlain(s) && NoBraces(s) }

  lemma TxKeys(s: string, r: string, tx: Tx)
    ensures forall f | f in TxFields(s, r, tx) :: IsKey(f.0)
  {
    assert IsKey("sender") && IsKey("receiver") && IsKey("amount");
    assert IsKey("fee") && IsKey("signature") && IsKey("tx_hash");
  }

  lemma BlockKeys(block: Block, txs: string)
    ensures forall f | f in BlockFields(block, txs) :: IsKey(f.0)
  {
    assert IsKey("index") && IsKey("timestamp") && IsKey("prev_hash") && IsKey("nonce");
    assert IsKey("hash") && IsKey("tx_count") && IsKey("transactions");
  }

  /** The braces of a transaction are those of its addresses. */
  lemma TxBraces(tx: Tx)
    requires NoBraces(tx.signature) && NoBraces(tx.txHash)
    ensures SameBraces(Fields(TxFields(Escape(tx.sender), Escape(tx.receiver), tx)), tx.sender + tx.receiver)
  {
    var s, r := Escape(tx.sender), Escape(tx.receiver);
    var f := TxFields(s, r, tx);
    TxKeys(s, r, tx);
    FieldsAreTheirValues(f);
    TxValues(s, r, tx);
    EscapeIsSame(tx.sender);
    EscapeIsSame(tx.receiver);
    SameConcat(s, tx.sender, r, tx.receiver);
  }

  lemma TxValues(s: string, r: string, tx: Tx)
    requires NoBraces(tx.signature) && NoBraces(tx.txHash)
    ensures SameBraces(Values(TxFields(s, r, tx)), s + r)
  {
    var addresses: seq<Field> := [("sender", Quote(s)), ("receiver", Quote(r))];
    var others: seq<Field> := [("amount", Numeral(tx.amount)), ("fee", Numeral(tx.fee)),
                               ("signature", Quote(tx.signature)), ("tx_hash", Quote(tx.txHash))];
    assert TxFields(s, r, tx) == addresses + others;
    ValuesConcat(addresses, others);
    NumeralHasNoBraces(tx.amount);
    NumeralHasNoBraces(tx.fee);
    QuietValues(others);
    NoBracesIsNothing(Values(others));
    TwoValues(("sender", Quote(s)), ("receiver", Quote(r)));
    QuoteIsSame(s);
    QuoteIsSame(r);
    SameConcat(Quote(s), s, Quote(r), r);
    SameConcat(Quote(s) + Quote(r), s + r, Values(others), "");
    assert s + r + "" == s + r;
  }

  lemma TwoValues(a: Field, b: Field)
    ensures Values([a, b]) == a.1 + b.1
  {
    assert [a, b][1..] == [b] && [b][1..] == [];
    assert Values([b]) == b.1 + "" == b.1;
  }

  /**
   The string-blind split of a printed transaction is exact, whatever stands
   behind it, if and only if the braces in its addresses balance.
   */
  lemma TxSplitExact(tx: Tx, rest: string)
    requires NoBraces(tx.signature) && NoBraces(tx.txHash) && rest != ""
    ensures BraceEnd(PrintTx(tx) + rest, 0) == |PrintTx(tx)| <==> Balanced(tx.sender + tx.receiver)
  {
    TxBraces(tx);
    var body := Fields(TxFields(Escape(tx.sender), Escape(tx.receiver), tx));
    ObjectSplitExact(body, rest);
    assert BraceRun(body, 1) == BraceRun(tx.sender + tx.receiver, 1);
  }

  /** What the split needs of a transaction. */
  predicate Splittable(tx: Tx) {
    NoBraces(tx.signature) && NoBraces(tx.txHash) && Balanced(tx.sender + tx.receiver)
  }

  lemma BalancedIsNothing(s: string)
    requires Balanced(s)
    ensures SameBraces(s, "") && SameBraces("{" + s + "}", "")
  {
    forall depth: int | depth > 0
      ensures BraceRun(s, depth) == BraceRun("", depth)
      ensures BraceRun("{" + s + "}", depth) == BraceRun("", depth)
    {
      BraceRunDeeper(s, 1, depth - 1);
      BraceRunDeeper(s, 1, depth);
      BraceRunConcat("{", s, depth);
      BraceRunConcat("{" + s, "}", depth);
      assert "{"[1..] == "" && "}"[1..] == "";
    }
  }

  lemma PrintTxIsNothing(tx: Tx)
    requires Splittable(tx)
    ensures SameBraces(PrintTx(tx), "")
  {
    TxBraces(tx);
    var body := Fields(TxFields(Escape(tx.sender), Escape(tx.receiver), tx));
    assert BraceRun(body, 1) == BraceRun(tx.sender + tx.receiver, 1);
    BalancedIsNothing(body);
  }

  lemma {:induction false} JoinIsNothing(items: seq<string>)
    requires forall i | 0 <= i < |items| :: SameBraces(items[i], "")
    ensures SameBraces(Join(items), "")
  {
    if |items| > 1 {
      JoinIsNothing(items[1..]);
      SameConcat(items[0], "", Join(items[1..]), "");
      NoBracesIsNothing(",");
      SameConcat(items[0], "", ",", "");
      SameConcat(items[0] + ",", "" + "", Join(items[1..]), "");
      assert "" + "" + "" == "";
    }
  }

  predicate SplittableBlock(block: Block) {
    && NoBraces(block.prevHash) && NoBraces(block.hash)
    && forall i | 0 <= i < |block.txs| :: Splittable(block.txs[i])
  }

  lemma PrintTxsIsNothing(block: Block)
    requires SplittableBlock(block)
    ensures SameBraces(PrintTxs(block.txs), "")
  {
    forall i | 0 <= i < |block.txs| ensures SameBraces(TxTexts(block.txs)[i], "") {
      PrintTxIsNothing(block.txs[i]);
    }
    var items := Join(TxTexts(block.txs));
    JoinIsNothing(TxTexts(block.txs));
    SameWithin("[", items, "]");
  }

  lemma BlockIsBalanced(block: Block)
    requires SplittableBlock(block)
    ensures Balanced(Fields(BlockFields(block, PrintTxs(block.txs))))
  {
    var txs := PrintTxs(block.txs);
    var f := BlockFields(block, txs);
    BlockKeys(block, txs);
    FieldsAreTheirValues(f);
    BlockValues(block, txs);
    PrintTxsIsNothing(block);
    assert BraceRun(Fields(f), 1) == BraceRun(Values(f), 1) == BraceRun(txs, 1) == BraceRun("", 1);
  }

  lemma BlockValues(block: Block, txs: string)
    requires NoBraces(block.prevHash) && NoBraces(block.hash)
    ensures SameBraces(Values(BlockFields(block, txs)), txs)
  {
    var front: seq<Field> := [
      ("index", Numeral(block.index)), ("timestamp", SignedNumeral(block.timestamp)),
      ("prev_hash", Quote(block.prevHash)), ("nonce", Numeral(block.nonce)),
      ("hash", Quote(block.hash)), ("tx_count", Numeral(|block.txs|))];
    assert BlockFields(block, txs) == front + [("transactions", txs)];
    ValuesConcat(front, [("transactions", txs)]);
    assert Values([("transactions", txs)]) == txs + "";
    NumeralHasNoBraces(block.index);
    SignedHasNoBraces(block.timestamp);
    NumeralHasNoBraces(block.nonce);
    NumeralHasNoBraces(|block.txs|);
    QuietValues(front);
    Assoc(Values(front), txs, "");
    SameWithin(Values(front), txs, "");
  }
}
