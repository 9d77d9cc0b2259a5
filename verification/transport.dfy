/**
 Exactly which transactions survive being sent. A backslash at the end of the
 sender hides the closing quote from the payload scan, which from there on
 takes strings for structure and structure for strings.
 */
module Transport {
  import opened Machine
  import opened Decimal
  import opened LibC
  import opened Records
  import opened Json
  import opened JsonLaws
  import opened Scanners
  import opened ScanLaws
  import opened Protocol
  import opened Codec
  import opened RoundTrip
  import opened Messages

  // Text that the scan takes for structure

  function SinkStep(depth: int, c: char): int {
    if c == '{' || c == '[' then depth + 1 else if c == '}' || c == ']' then depth - 1 else depth
  }

  /** The depth after `s`, counting both kinds of brackets, or None if it drops
      to zero on the way. */
  function Sink(s: string, depth: int): Option<int> {
    if s == "" then Some(depth)
    else
      var next := SinkStep(depth, s[0]);
      if next <= 0 then None else Sink(s[1..], next)
  }

  /** `s` closes no bracket that it has not opened itself. */
  predicate StaysOpen(s: string) { Sink(s, 1).Some? }

  lemma {:induction false} EscapeOutside(s: string, depth: int, slash: bool)
    requires depth > 0
    ensures Run(Escape(s), Scan(depth, false, slash))
         == match Sink(s, depth)
            case None => None
            case Some(d) => Some(Scan(d, false, if s == "" then slash else EndsInBackslash(s)))
  {
    if s != "" {
      var c, rest, next := EscapeChar(s[0]), s[1..], SinkStep(depth, s[0]);
      EscapeCharOutside(s[0], depth, slash);
      RunConcat(c, Escape(rest), Scan(depth, false, slash));
      if next > 0 { EscapeOutside(rest, next, s[0] == '\\'); }
      assert rest != "" ==> rest[|rest| - 1] == s[|s| - 1];
    }
  }

  lemma EscapeCharOutside(c: char, depth: int, slash: bool)
    requires depth > 0
    ensures Run(EscapeChar(c), Scan(depth, false, slash))
         == if SinkStep(depth, c) <= 0 then None else Some(Scan(SinkStep(depth, c), false, c == '\\'))
  {
    var pair := c == '\"' || c == '\\';
    assert [c][1..] == "";
    assert Run([c], Scan(depth, false, pair || slash))
        == if SinkStep(depth, c) <= 0 then None else Some(Scan(SinkStep(depth, c), false, c == '\\'));
    if pair { assert EscapeChar(c)[1..] == [c]; }
  }

  predicate Bracketless(s: string) {
    forall i | 0 <= i < |s| :: s[i] != '{' && s[i] != '}' && s[i] != '[' && s[i] != ']'
  }

  /** Without brackets the scan cannot come to an end. */
  lemma {:induction false} BracketlessRun(s: string, st: Scan)
    requires Bracketless(s) && st.depth > 0
    ensures Run(s, st).Some? && Run(s, st).value.depth == st.depth
  {
    if s != "" { BracketlessRun(s[1..], ScanStep(st, s[0])); }
  }

  lemma {:induction false} PayloadEndPast(s: string, rest: string, st: Scan)
    requires Run(s, st).Some? && rest != ""
    ensures PayloadEnd(s + rest, st) == |s| + PayloadEnd(rest, Run(s, st).value)
  {
    if s == "" {
      assert s + rest == rest;
    } else {
      assert (s + rest)[1..] == s[1..] + rest;
      PayloadEndPast(s[1..], rest, ScanStep(st, s[0]));
    }
  }

  lemma {:induction false} PayloadEndsWithin(s: string, rest: string, st: Scan)
    requires Run(s, st).None?
    ensures s != "" && PayloadEnd(s + rest, st) <= |s|
  {
    var next := ScanStep(st, s[0]);
    assert (s + rest)[1..] == s[1..] + rest;
    if next.depth > 0 { PayloadEndsWithin(s[1..], rest, next); }
  }

  // A transaction in three parts: up to the receiver, the receiver, the rest

  function Upto(sender: string): string {
    FieldText(("sender", Quote(sender))) + "," + "\"receiver\":" + "\""
  }

  function After(tx: Tx): string { "\"," + Fields(TxFields("", "", tx)[2..]) }

  lemma TxParts(s: string, r: string, tx: Tx)
    ensures Fields(TxFields(s, r, tx)) == Upto(s) + r + After(tx)
  {
    var f := TxFields(s, r, tx);
    var more := Fields(f[2..]);
    assert f[2..] == TxFields("", "", tx)[2..];
    assert f[1..][1..] == f[2..];
    assert Fields(f[1..]) == FieldText(f[1]) + "," + more;
    Parts(FieldText(f[0]) + ",", r, more);
  }

  lemma Parts(head: string, r: string, more: string)
    ensures head + ("\"" + "receiver" + "\":" + Quote(r) + "," + more)
         == head + "\"receiver\":" + "\"" + r + ("\"," + more)
  {
    var key := "\"receiver\":";
    assert "\"" + "receiver" + "\":" == key;
    Assoc("\"", r, "\"");
    Assoc(key, "\"" + r + "\"", "," + more);
    assert key + Quote(r) + "," + more == key + "\"" + r + ("\"," + more);
    Assoc(head, key + "\"" + r, "\"," + more);
    Assoc(head, key + "\"", r);
    Assoc(head, key, "\"");
  }

  lemma RearIsBracketless(tx: Tx)
    requires Bracketless(tx.signature) && Bracketless(tx.txHash)
    ensures Bracketless(After(tx))
  {
    var f := TxFields("", "", tx)[2..];
    assert forall i | 0 <= i < |Numeral(tx.amount)| :: IsDigit(Numeral(tx.amount)[i]);
    assert forall i | 0 <= i < |Numeral(tx.fee)| :: IsDigit(Numeral(tx.fee)[i]);
    forall i | 0 <= i < |f| ensures Bracketless(f[i].0) && Bracketless(f[i].1) {
    }
    FieldsAreBracketless(f);
  }

  lemma {:induction false} FieldsAreBracketless(fields: seq<Field>)
    requires forall i | 0 <= i < |fields| :: Bracketless(fields[i].0) && Bracketless(fields[i].1)
    ensures Bracketless(Fields(fields))
  {
    if fields != [] {
      FieldsAreBracketless(fields[1..]);
      assert Bracketless(FieldText(fields[0]));
    }
  }

  /** Where the scan stands before the receiver: inside its string, or outside
      when a backslash ends the sender. */
  lemma UptoRun(s: string)
    ensures Run(Upto(Escape(s)), Outside(1)) == Some(Scan(1, !EndsInBackslash(s), false))
  {
    var key, quoted := Quote("sender") + ":", Quote(Escape(s));
    var swapped := EndsInBackslash(s);
    KeyRun("sender", 1, false);
    QuotedRun(s, 1);
    RunConcat(key, quoted, Outside(1));
    assert FieldText(("sender", quoted)) == key + quoted;
    assert Run(",", Scan(1, swapped, false)) == Some(Scan(1, swapped, false)) by { assert ","[1..] == ""; }
    RunConcat(key + quoted, ",", Outside(1));
    KeyRun("receiver", 1, swapped);
    assert Quote("receiver") + ":" == "\"receiver\":";
    RunConcat(key + quoted + ",", "\"receiver\":", Outside(1));
    assert Run("\"", Scan(1, swapped, false)) == Some(Scan(1, !swapped, false)) by { assert "\""[1..] == ""; }
    RunConcat(key + quoted + "," + "\"receiver\":", "\"", Outside(1));
  }

  /** A key has two quotes, so the scan is as far inside or outside behind it. */
  lemma KeyRun(key: string, depth: int, inString: bool)
    requires IsKey(key) && depth > 0
    ensures Run(Quote(key) + ":", Scan(depth, inString, false)) == Some(Scan(depth, inString, false))
  {
    assert "\""[1..] == "" && ":"[1..] == "";
    assert forall i | 0 <= i < |key| :: IsKeyChar(key[i]);
    QuietRun(key, depth, !inString);
    RunConcat("\"", key, Scan(depth, inString, false));
    RunConcat("\"" + key, "\"", Scan(depth, inString, false));
    RunConcat(Quote(key), ":", Scan(depth, inString, false));
  }

  lemma {:induction false} QuietRun(s: string, depth: int, inString: bool)
    requires depth > 0 && forall i | 0 <= i < |s| :: IsQuiet(s[i])
    ensures Run(s, Scan(depth, inString, false)) == Some(Scan(depth, inString, false))
  {
    if s != "" {
      assert IsQuiet(s[0]);
      QuietRun(s[1..], depth, inString);
    }
  }

  /** The payload scan loses the transaction only when both go wrong. */
  predicate Survives(tx: Tx) { !EndsInBackslash(tx.sender) || StaysOpen(tx.receiver) }

  lemma ReceiverRun(tx: Tx)
    ensures Run(Upto(Escape(tx.sender)) + Escape(tx.receiver), Outside(1)).Some? <==> Survives(tx)
    ensures Survives(tx) ==> Run(Upto(Escape(tx.sender)) + Escape(tx.receiver), Outside(1)).value.depth > 0
    ensures !Survives(tx) ==> Run(Escape(tx.receiver), Outside(1)).None?
  {
    var s, r := tx.sender, tx.receiver;
    UptoRun(s);
    RunConcat(Upto(Escape(s)), Escape(r), Outside(1));
    if EndsInBackslash(s) {
      EscapeOutside(r, 1, false);
      SinkStays(r, 1);
    } else {
      EscapeScan(r, 1, false);
    }
  }

  lemma {:induction false} SinkStays(s: string, depth: int)
    requires depth > 0
    ensures Sink(s, depth).Some? ==> Sink(s, depth).value > 0
  {
    if s != "" {
      var next := SinkStep(depth, s[0]);
      if next > 0 { SinkStays(s[1..], next); }
    }
  }

  // What arrives

  /** What the peer takes for the payload. */
  function Arrived(tx: Tx): string {
    var text := PrintTx(tx) + "}";
    text[..PayloadEnd(text, SCAN_START)]
  }

  lemma OpenBrace(s: string, rest: string)
    requires Run(s, Outside(1)).Some? && rest != ""
    ensures PayloadEnd("{" + s + rest, SCAN_START) == 1 + |s| + PayloadEnd(rest, Run(s, Outside(1)).value)
  {
    assert Run("{", SCAN_START) == Some(Outside(1)) by { assert "{"[1..] == ""; }
    RunConcat("{", s, SCAN_START);
    PayloadEndPast("{" + s, rest, SCAN_START);
  }

  lemma ArrivesWhole(tx: Tx)
    requires Bracketless(tx.signature) && Bracketless(tx.txHash) && Survives(tx)
    ensures Arrived(tx) == PrintTx(tx) || Arrived(tx) == PrintTx(tx) + "}"
  {
    var front, rear := Upto(Escape(tx.sender)) + Escape(tx.receiver), After(tx);
    var body, text := front + rear, PrintTx(tx) + "}";
    TxParts(Escape(tx.sender), Escape(tx.receiver), tx);
    ReceiverRun(tx);
    RearIsBracketless(tx);
    RunConcat(front, rear, Outside(1));
    BracketlessRun(rear, Run(front, Outside(1)).value);
    OpenBrace(body, "}}");
    assert "{" + body + "}}" == text;
    assert text[..|PrintTx(tx)|] == PrintTx(tx);
  }

  lemma ArrivesCut(tx: Tx) returns (cut: string)
    requires !Survives(tx)
    ensures cut <= Escape(tx.receiver) && Arrived(tx) == "{" + Upto(Escape(tx.sender)) + cut
  {
    var front, r := Upto(Escape(tx.sender)), Escape(tx.receiver);
    var rest := After(tx) + "}}";
    TxParts(Escape(tx.sender), r, tx);
    UptoRun(tx.sender);
    ReceiverRun(tx);
    PayloadEndsWithin(r, rest, Outside(1));
    OpenBrace(front, r + rest);
    var n := PayloadEnd(r + rest, Outside(1));
    cut := r[..n];
    CutAt(front, r, After(tx), n);
  }

  lemma CutAt(front: string, r: string, rear: string, n: nat)
    requires n <= |r|
    ensures "{" + (front + r + rear) + "}" + "}" == "{" + front + (r + (rear + "}}"))
    ensures ("{" + front + (r + (rear + "}}")))[..1 + |front| + n] == "{" + front + r[..n]
  {
  }

  lemma {:induction false} GuardedPrefix(s: string, t: string)
    requires s <= t && Guarded(t)
    ensures Guarded(s)
  {
    forall i | 0 <= i < |s| && s[i] == '\"' ensures i > 0 && s[i - 1] == '\\' {
      assert t[i] == s[i] && t[i - 1] == s[i - 1];
    }
  }

  /** No key begins in the open string of a cut payload. */
  lemma NoMatchInOpenValue(y: string, key: string, pattern: string, j: nat)
    requires Seeks(pattern, key) && IsKey(key) && Guarded(y)
    ensures !MatchAt("\"" + y, j, pattern)
  {
    var text, n := "\"" + y, |key|;
    var second, d := j + n + 1, 0;
    if j < |text| && text[j] == '\"' && second < |text| {
      d := if text[second] == '\"' then n else n + 1;
      assert text[second] == y[second - 1];
      assert second >= 2 ==> text[second - 1] == y[second - 2];
    } else if j < |text| {
      d := if text[j] == '\"' then n + 1 else 0;
    }
    assert 1 <= d <= n ==> pattern[d] == key[d - 1];
    Mismatch(text, j, pattern, d);
  }

  lemma NoMatchInCut(sender: string, cut: string, key: string, pattern: string, i: nat)
    requires Guarded(Escape(sender)) && Guarded(cut) && Seeks(pattern, key)
    requires IsKey(key) && key != "sender" && key != "receiver"
    ensures !MatchAt("{" + (FieldText(("sender", Quote(Escape(sender)))) + ("," + FieldText(("receiver", "\"" + cut)))),
                     i, pattern)
  {
    var first: Field, second: Field := ("sender", Quote(Escape(sender))), ("receiver", "\"" + cut);
    var rest := "," + FieldText(second);
    var inner := FieldText(first) + rest;
    var text := "{" + inner;
    assert IsKey("sender") && IsKey("receiver");
    QuotedIsSafe(sender);
    if i == 0 {
      Mismatch(text, 0, pattern, 0);
    } else {
      assert text[1..] == inner;
      MatchShifts(text, i, pattern);
      if i - 1 <= |FieldText(first)| {
        NoMatchInField(first, rest, key, pattern, i - 1);
      } else {
        var k := i - 1 - |FieldText(first)| - 1;
        NoMatchInOpenField(second, cut, key, pattern, k);
        SuffixMatch(FieldText(first) + ",", FieldText(second), pattern, k);
        Assoc(FieldText(first), ",", FieldText(second));
      }
    }
  }

  /** Nor in a field with another key whose string is cut. */
  lemma NoMatchInOpenField(field: Field, cut: string, key: string, pattern: string, k: nat)
    requires IsKey(field.0) && IsKey(key) && field.0 != key
    requires field.1 == "\"" + cut && Guarded(cut) && Seeks(pattern, key)
    ensures !MatchAt(FieldText(field), k, pattern)
  {
    var head := "\"" + field.0 + "\":";
    if k < |head| {
      NoMatchInKey(field, "", key, pattern, k);
      assert FieldText(field) + "" == FieldText(field);
    } else {
      NoMatchInOpenValue(cut, key, pattern, k - |head|);
      SuffixMatch(head, field.1, pattern, k - |head|);
      assert FieldText(field) == head + field.1;
    }
  }

  /** A cut payload has no amount, and is refused. */
  lemma CutIsRefused(sender: string, cut: string, json: CString)
    requires Guarded(cut) && json == "{" + Upto(Escape(sender)) + cut
    ensures !ParseTx(json).1
  {
    hide ParseTx, MatchAt;
    var first, second := FieldText(("sender", Quote(Escape(sender)))), "\"receiver\":";
    EscapeIsGuarded(sender);
    BothSeek("amount");
    assert "amount"[0] != "sender"[0] && |"receiver"| != |"amount"| && IsKey("amount");
    CutText(first, second, cut);
    assert FieldText(("receiver", "\"" + cut)) == second + ("\"" + cut);
    assert json == "{" + (first + ("," + FieldText(("receiver", "\"" + cut))));
    forall i: nat ensures !MatchAt(json, i, Pattern("amount")) && !MatchAt(json, i, SpacedPattern("amount")) {
      NoMatchInCut(sender, cut, "amount", Pattern("amount"), i);
      NoMatchInCut(sender, cut, "amount", SpacedPattern("amount"), i);
    }
    NoAmountIsRefused(json);
  }

  lemma NoAmountIsRefused(json: CString)
    requires forall i: nat :: !MatchAt(json, i, Pattern("amount")) && !MatchAt(json, i, SpacedPattern("amount"))
    ensures !ParseTx(json).1
  {
    StrstrIsFirst(json, Pattern("amount"));
    StrstrIsFirst(json, SpacedPattern("amount"));
    assert GetU64(json, "amount") == None;
  }

  lemma CutText(first: string, second: string, cut: string)
    ensures "{" + (first + "," + second + "\"") + cut == "{" + (first + ("," + (second + ("\"" + cut))))
  {
    Assoc("{", first + "," + second + "\"", cut);
    Assoc(first + "," + second, "\"", cut);
    Assoc(first + ",", second, "\"" + cut);
    Assoc(first, ",", second + ("\"" + cut));
  }

  /**
   A transaction arrives unchanged or not at all. It is lost exactly when a
   backslash ends its sender and its receiver closes a bracket too many.
   */
  lemma TransportExactly(tx: Tx)
    requires Printable(tx) && Bracketless(tx.signature) && Bracketless(tx.txHash)
    ensures '\0' !in PrintMsg(MSG_NEW_TX, PrintTx(tx)) && '\0' !in Arrived(tx)
    ensures ParseMsg(PrintMsg(MSG_NEW_TX, PrintTx(tx))) == (MSG_NEW_TX, Some(Arrived(tx)))
    ensures Survives(tx) ==> ParseTx(Arrived(tx)) == (tx, true)
    ensures !Survives(tx) ==> !ParseTx(Arrived(tx)).1
  {
    hide ParseTx, ParseMsg, Survives, PrintMsg;
    MessageArrives(tx);
    if Survives(tx) {
      ArrivesWhole(tx);
      TxRoundTrip(tx, "");
      TxRoundTrip(tx, "}");
      assert PrintTx(tx) + "" == PrintTx(tx);
    } else {
      var cut := ArrivesCut(tx);
      EscapeIsGuarded(tx.receiver);
      GuardedPrefix(cut, Escape(tx.receiver));
      CutIsRefused(tx.sender, cut, Arrived(tx));
    }
  }

  lemma MessageArrives(tx: Tx)
    ensures '\0' !in PrintMsg(MSG_NEW_TX, PrintTx(tx)) && '\0' !in Arrived(tx)
    ensures ParseMsg(PrintMsg(MSG_NEW_TX, PrintTx(tx))) == (MSG_NEW_TX, Some(Arrived(tx)))
  {
    hide GetInt, ValueOf, Findable, PayloadEnd, TxFields;
    PrintTxFits(tx);
    var body := Fields(TxFields(Escape(tx.sender), Escape(tx.receiver), tx));
    var payload := PrintTx(tx);
    var f, json := MsgFields(MSG_NEW_TX, payload), PrintMsg(MSG_NEW_TX, payload);
    PrintMsgFits(MSG_NEW_TX, payload);
    MsgFindable(MSG_NEW_TX, body);
    assert json + "" == json && "}" + "" == "}";
    ReadsInt(f, 0, "", MSG_NEW_TX);
    FindsTheField(f, 1, "");
  }

  /** There are such transactions. */
  lemma SomeTransactionIsLost()
    ensures exists tx: Tx :: Printable(tx) && Bracketless(tx.signature) && Bracketless(tx.txHash) && !Survives(tx)
  {
    var tx := Tx("a\\", "}", 1, 1, "", "");
    assert tx.receiver[0] == '}';
    assert Printable(tx) && Bracketless(tx.signature) && Bracketless(tx.txHash) && !Survives(tx);
  }
}
