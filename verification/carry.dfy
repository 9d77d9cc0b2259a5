/**
 How far the payload scan gets in the list of a block. Every address that ends
 in a backslash turns strings into structure and back, and while they are
 turned the brackets in addresses count.
 */
module Carry {
  import opened Machine
  import opened Decimal
  import opened LibC
  import opened Records
  import opened Json
  import opened JsonLaws
  import opened Scanners
  import opened ScanLaws
  import opened Protocol
  import opened BraceLaws
  import opened Transport

  /** The scanner behind an address, or None if it came to its end inside. */
  function PastAddress(st: Scan, s: string): Option<Scan> {
    if st.inString then
      match Sink(s, st.depth)
      case None => None
      case Some(d) => Some(Scan(d, !EndsInBackslash(s), false))
    else Some(Scan(st.depth, EndsInBackslash(s), false))
  }

  function Opened(st: Scan): Scan { Scan(if st.inString then st.depth else st.depth + 1, st.inString, false) }

  function Closed(st: Scan): Scan { Scan(if st.inString then st.depth else st.depth - 1, st.inString, false) }

  /** And in front of the closing brace of a transaction. */
  function PastTx(st: Scan, tx: Tx): Option<Scan> {
    match PastAddress(Opened(st), tx.sender)
    case None => None
    case Some(mid) => PastAddress(mid, tx.receiver)
  }

  /** And in front of that of the last transaction of a list. */
  function PastTxs(st: Scan, txs: seq<Tx>): Option<Scan>
    decreases |txs|
  {
    if txs == [] then Some(st)
    else
      match PastTx(st, txs[0])
      case None => None
      case Some(mid) =>
        if |txs| == 1 then Some(mid)
        else if Closed(mid).depth <= 0 then None
        else PastTxs(Closed(mid), txs[1..])
  }

  /** The payload scan gets through the list of a block. */
  predicate Carried(txs: seq<Tx>) { PastTxs(Outside(2), txs).Some? }

  lemma PastAddressIsOpen(st: Scan, s: string)
    requires st.depth > 0 && PastAddress(st, s).Some?
    ensures PastAddress(st, s).value.depth > 0 && !PastAddress(st, s).value.slash
  {
    if st.inString { SinkStays(s, st.depth); }
  }

  lemma PastTxIsOpen(st: Scan, tx: Tx)
    requires st.depth > 0 && PastTx(st, tx).Some?
    ensures PastTx(st, tx).value.depth > 0 && !PastTx(st, tx).value.slash
  {
    PastAddressIsOpen(Opened(st), tx.sender);
    PastAddressIsOpen(PastAddress(Opened(st), tx.sender).value, tx.receiver);
  }

  /** Without a backslash at the end of an address, nothing is turned. */
  lemma {:induction false} NoBackslashCarries(txs: seq<Tx>, depth: int)
    requires depth > 0
    requires forall i | 0 <= i < |txs| :: !EndsInBackslash(txs[i].sender) && !EndsInBackslash(txs[i].receiver)
    ensures PastTxs(Outside(depth), txs).Some?
    decreases |txs|
  {
    if txs != [] {
      assert PastTx(Outside(depth), txs[0]) == Some(Outside(depth + 1));
      if |txs| > 1 { NoBackslashCarries(txs[1..], depth); }
    }
  }

  // What the scanner does

  /** The scanner comes out of `s` as it went in, inside a string or outside. */
  ghost predicate Steady(s: string) {
    forall depth: int, inString: bool | depth > 0 ::
      Run(s, Scan(depth, inString, false)) == Some(Scan(depth, inString, false))
  }

  lemma SteadyConcat(s: string, t: string)
    requires Steady(s) && Steady(t)
    ensures Steady(s + t)
  {
    forall depth: int, inString: bool | depth > 0
      ensures Run(s + t, Scan(depth, inString, false)) == Some(Scan(depth, inString, false))
    {
      RunConcat(s, t, Scan(depth, inString, false));
    }
  }

  lemma QuietIsSteady(s: string)
    requires forall i | 0 <= i < |s| :: IsQuiet(s[i])
    ensures Steady(s)
  {
    forall depth: int, inString: bool | depth > 0
      ensures Run(s, Scan(depth, inString, false)) == Some(Scan(depth, inString, false))
    {
      QuietRun(s, depth, inString);
    }
  }

  lemma KeyIsSteady(key: string)
    requires IsKey(key)
    ensures Steady(Quote(key) + ":")
  {
    forall depth: int, inString: bool | depth > 0
      ensures Run(Quote(key) + ":", Scan(depth, inString, false)) == Some(Scan(depth, inString, false))
    {
      KeyRun(key, depth, inString);
    }
  }

  /** Two quotes with nothing special between them. */
  lemma BareIsSteady(s: string)
    requires IsPlain(s) && Bracketless(s)
    ensures Steady(Quote(s))
  {
    forall depth: int, inString: bool | depth > 0
      ensures Run(Quote(s), Scan(depth, inString, false)) == Some(Scan(depth, inString, false))
    {
      assert "\""[1..] == "";
      assert forall i | 0 <= i < |s| :: s[i] in s;
      QuietRun(s, depth, !inString);
      RunConcat("\"", s, Scan(depth, inString, false));
      RunConcat("\"" + s, "\"", Scan(depth, inString, false));
    }
  }

  lemma FieldIsSteady(field: Field)
    requires IsKey(field.0) && Steady(field.1)
    ensures Steady(FieldText(field))
  {
    KeyIsSteady(field.0);
    SteadyConcat(Quote(field.0) + ":", field.1);
    assert FieldText(field) == Quote(field.0) + ":" + field.1;
  }

  lemma {:induction false} FieldsAreSteady(fields: seq<Field>)
    requires forall i | 0 <= i < |fields| :: IsKey(fields[i].0) && Steady(fields[i].1)
    ensures Steady(Fields(fields))
  {
    hide Steady;
    if fields == [] {
      QuietIsSteady("");
    } else {
      FieldIsSteady(fields[0]);
      if |fields| > 1 {
        FieldsAreSteady(fields[1..]);
        QuietIsSteady(",");
        SteadyConcat(FieldText(fields[0]), ",");
        SteadyConcat(FieldText(fields[0]) + ",", Fields(fields[1..]));
      }
    }
  }

  /** A printed address, at any depth, inside a string or outside. */
  lemma AddressRun(s: string, st: Scan)
    requires st.depth > 0 && !st.slash
    ensures Run(Quote(Escape(s)), st) == PastAddress(st, s)
  {
    if st.inString {
      var out := Scan(st.depth, false, false);
      assert Run("\"", st) == Some(out) by { assert "\""[1..] == ""; }
      RunConcat("\"", Escape(s), st);
      EscapeOutside(s, st.depth, false);
      RunConcat("\"" + Escape(s), "\"", st);
      SinkStays(s, st.depth);
      assert "\""[1..] == "";
    } else {
      QuotedRun(s, st.depth);
    }
  }

  /** Signature and hash as nodes make them. */
  predicate Bare(tx: Tx) {
    IsPlain(tx.signature) && Bracketless(tx.signature) && IsPlain(tx.txHash) && Bracketless(tx.txHash)
  }

  /** What stands behind the receiver. */
  function Rear(tx: Tx): string { "," + Fields(TxFields("", "", tx)[2..]) }

  lemma RearIsSteady(tx: Tx)
    requires Bare(tx)
    ensures Steady(Rear(tx))
  {
    hide Steady, IsKey, Numeral;
    var f := TxFields("", "", tx);
    TxKeys("", "", tx);
    NumeralIsQuiet(tx.amount);
    NumeralIsQuiet(tx.fee);
    QuietIsSteady(Numeral(tx.amount));
    QuietIsSteady(Numeral(tx.fee));
    BareIsSteady(tx.signature);
    BareIsSteady(tx.txHash);
    forall i | 0 <= i < |f[2..]| ensures IsKey(f[2..][i].0) && Steady(f[2..][i].1) { assert f[2..][i] in f; }
    FieldsAreSteady(f[2..]);
    QuietIsSteady(",");
    SteadyConcat(",", Fields(f[2..]));
  }

  lemma NumeralIsQuiet(n: nat)
    ensures forall i | 0 <= i < |Numeral(n)| :: IsQuiet(Numeral(n)[i])
  {
    assert forall i | 0 <= i < |Numeral(n)| :: IsDigit(Numeral(n)[i]);
  }

  /** A transaction in four parts: up to its sender, to its receiver, the rest. */
  function SenderPart(tx: Tx): string { "\"sender\":" + Quote(Escape(tx.sender)) }

  function ReceiverPart(tx: Tx): string { ",\"receiver\":" + Quote(Escape(tx.receiver)) }

  lemma PrintedParts(tx: Tx)
    ensures PrintTx(tx) == "{" + SenderPart(tx) + ReceiverPart(tx) + Rear(tx) + "}"
  {
    var s, r := Quote(Escape(tx.sender)), Quote(Escape(tx.receiver));
    var f := TxFields(Escape(tx.sender), Escape(tx.receiver), tx);
    var more := Fields(f[2..]);
    assert f[2..] == TxFields("", "", tx)[2..] && f[1..][1..] == f[2..];
    assert "\"" + "sender" + "\":" == "\"sender\":" && "," + "\"receiver\":" == ",\"receiver\":";
    assert "\"" + "receiver" + "\":" == "\"receiver\":";
    assert Fields(f[1..]) == "\"receiver\":" + r + "," + more;
    assert Fields(f) == SenderPart(tx) + "," + ("\"receiver\":" + r + "," + more);
    Assoc("\"receiver\":" + r, ",", more);
    Assoc(SenderPart(tx), ",", "\"receiver\":" + r + Rear(tx));
    Assoc(",", "\"receiver\":" + r, Rear(tx));
    Assoc(",", "\"receiver\":", r);
    Assoc(SenderPart(tx), ReceiverPart(tx), Rear(tx));
    Assoc("{", SenderPart(tx), ReceiverPart(tx) + Rear(tx));
    Assoc("{" + SenderPart(tx), ReceiverPart(tx), Rear(tx));
  }

  lemma PartRun(head: string, s: string, st: Scan)
    requires Steady(head) && st.depth > 0 && !st.slash
    ensures Run(head + Quote(Escape(s)), st) == PastAddress(st, s)
  {
    RunConcat(head, Quote(Escape(s)), st);
    AddressRun(s, st);
  }

  lemma HeadsAreSteady()
    ensures Steady("\"sender\":") && Steady(",\"receiver\":")
  {
    hide Steady;
    assert IsKey("sender") && IsKey("receiver");
    KeyIsSteady("sender");
    KeyIsSteady("receiver");
    assert Quote("sender") + ":" == "\"sender\":" && "," + (Quote("receiver") + ":") == ",\"receiver\":";
    QuietIsSteady(",");
    SteadyConcat(",", Quote("receiver") + ":");
  }

  lemma OpenRun(st: Scan)
    requires st.depth > 0 && !st.slash
    ensures Run("{", st) == Some(Opened(st))
  {
    assert "{"[1..] == "";
  }

  /** The scan of a transaction up to its closing brace. */
  lemma TxRun(tx: Tx, st: Scan)
    requires Bare(tx) && st.depth > 0 && !st.slash
    ensures Run("{" + SenderPart(tx), st) == PastAddress(Opened(st), tx.sender)
    ensures Run("{" + SenderPart(tx) + ReceiverPart(tx), st) == PastTx(st, tx)
    ensures Run("{" + SenderPart(tx) + ReceiverPart(tx) + Rear(tx), st) == PastTx(st, tx)
  {
    hide Steady, Run, PastAddress;
    HeadsAreSteady();
    OpenRun(st);
    RunConcat("{", SenderPart(tx), st);
    PartRun("\"sender\":", tx.sender, Opened(st));
    var mid := PastAddress(Opened(st), tx.sender);
    RunConcat("{" + SenderPart(tx), ReceiverPart(tx), st);
    if mid.Some? {
      PastAddressIsOpen(Opened(st), tx.sender);
      PartRun(",\"receiver\":", tx.receiver, mid.value);
    }
    RearIsSteady(tx);
    RunConcat("{" + SenderPart(tx) + ReceiverPart(tx), Rear(tx), st);
    if PastTx(st, tx).Some? {
      PastTxIsOpen(st, tx);
      SteadyRuns(Rear(tx), PastTx(st, tx).value);
    }
  }

  lemma SteadyRuns(s: string, st: Scan)
    requires Steady(s) && st.depth > 0 && !st.slash
    ensures Run(s, st) == Some(st)
  {
  }
}
