/** When the scanners stop where they should. */
module ScanLaws {
  import opened Machine
  import opened Json
  import opened JsonLaws
  import opened Scanners

  // Curly braces only

  /** The depth after `s`, or None if it drops to zero on the way. */
  function BraceRun(s: string, depth: int): Option<int> {
    if s == "" then Some(depth)
    else
      var next := BraceStep(depth, s[0]);
      if next <= 0 then None else BraceRun(s[1..], next)
  }

  lemma {:induction false} BraceRunConcat(s: string, t: string, depth: int)
    ensures BraceRun(s + t, depth)
         == match BraceRun(s, depth) case None => None case Some(d) => BraceRun(t, d)
  {
    if s == "" {
      assert s + t == t;
    } else {
      assert (s + t)[1..] == s[1..] + t;
      var next := BraceStep(depth, s[0]);
      if next > 0 { BraceRunConcat(s[1..], t, next); }
    }
  }

  /** Behind an open brace, `s` leaves the depth as it was. */
  predicate Balanced(s: string) { BraceRun(s, 1) == Some(1) }

  /** The scan stops at a closing brace with more text behind it exactly when
      that brace brings the depth to zero for the first time. */
  lemma {:induction false} BraceEndExact(body: string, rest: string, depth: int)
    requires depth > 0 && rest != ""
    ensures BraceEnd(body + "}" + rest, depth) == |body| + 1 <==> BraceRun(body, depth) == Some(1)
  {
    var text := body + "}" + rest;
    if body != "" {
      assert text[1..] == body[1..] + "}" + rest;
      var next := BraceStep(depth, body[0]);
      if next > 0 { BraceEndExact(body[1..], rest, next); }
    }
  }

  /** The string-blind split is exact if and only if the braces balance. */
  lemma ObjectSplitExact(body: string, rest: string)
    requires rest != ""
    ensures BraceEnd("{" + body + "}" + rest, 0) == |body| + 2 <==> Balanced(body)
  {
    var text := "{" + body + "}" + rest;
    assert text[1..] == body + "}" + rest;
    BraceEndExact(body, rest, 1);
  }

  lemma {:induction false} BraceEndPast(s: string, rest: string, depth: int)
    requires BraceRun(s, depth).Some? && rest != ""
    ensures BraceEnd(s + rest, depth) == |s| + BraceEnd(rest, BraceRun(s, depth).value)
  {
    if s == "" {
      assert s + rest == rest;
    } else {
      assert (s + rest)[1..] == s[1..] + rest;
      BraceEndPast(s[1..], rest, BraceStep(depth, s[0]));
    }
  }

  lemma {:induction false} BraceEndsWithin(s: string, rest: string, depth: int)
    requires BraceRun(s, depth).None?
    ensures s != "" && BraceEnd(s + rest, depth) <= |s|
  {
    var next := BraceStep(depth, s[0]);
    assert (s + rest)[1..] == s[1..] + rest;
    if next > 0 { BraceEndsWithin(s[1..], rest, next); }
  }

  lemma BehindOpenBrace(s: string, rest: string)
    requires BraceRun(s, 1).Some? && rest != ""
    ensures BraceEnd("{" + s + rest, 0) == 1 + |s| + BraceEnd(rest, BraceRun(s, 1).value)
  {
    assert ("{" + s + rest)[1..] == s + rest;
    BraceEndPast(s, rest, 1);
  }

  lemma {:induction false} BraceRunPrefix(s: string, t: string, depth: int)
    requires s <= t && BraceRun(t, depth).Some?
    ensures BraceRun(s, depth).Some?
  {
    if s != "" { BraceRunPrefix(s[1..], t[1..], BraceStep(depth, s[0])); }
  }

  /** The scan of a text in which it does not come to an end takes all of it. */
  lemma {:induction false} BraceEndsLast(s: string, depth: int)
    requires s != "" && depth > 0 && BraceRun(s, depth).Some?
    ensures BraceEnd(s, depth) == |s|
  {
    if |s| > 1 { BraceEndsLast(s[1..], BraceStep(depth, s[0])); }
  }

  /** And so does the scan of an object, whole or cut off, with nothing behind it. */
  lemma CutObjectEndsLast(body: string, k: nat)
    requires Balanced(body) && 0 < k <= |body| + 2
    ensures BraceEnd(("{" + body + "}")[..k], 0) == k
  {
    if k == 1 {
      assert ("{" + body + "}")[..1] == "{";
    } else if k == |body| + 2 {
      BehindOpenBrace(body, "}");
      assert ("{" + body + "}")[..k] == "{" + body + "}";
    } else {
      var s := ("{" + body + "}")[..k];
      assert s[1..] == body[..k - 1];
      BraceRunPrefix(body[..k - 1], body, 1);
      BraceEndsLast(body[..k - 1], 1);
    }
  }

  predicate NoBraces(s: string) { '{' !in s && '}' !in s }

  lemma {:induction false} NoBracesRun(s: string, depth: int)
    requires NoBraces(s) && depth > 0
    ensures BraceRun(s, depth) == Some(depth)
  {
    if s != "" {
      assert s[0] in s && NoBraces(s[1..]);
      NoBracesRun(s[1..], depth);
    }
  }

  /** Balanced text stays balanced at any depth. */
  lemma {:induction false} BraceRunDeeper(s: string, depth: int, more: nat)
    requires depth > 0 && BraceRun(s, depth).Some?
    ensures BraceRun(s, depth + more) == Some(BraceRun(s, depth).value + more)
  {
    if s != "" { BraceRunDeeper(s[1..], BraceStep(depth, s[0]), more); }
  }

  /** Escaping adds no braces and moves none. */
  lemma {:induction false} EscapeKeepsBraces(s: string, depth: int)
    requires depth > 0
    ensures BraceRun(Escape(s), depth) == BraceRun(s, depth)
  {
    if s != "" {
      var c, next := EscapeChar(s[0]), BraceStep(depth, s[0]);
      BraceRunConcat(c, Escape(s[1..]), depth);
      EscapeCharRun(s[0], depth);
      if next > 0 { EscapeKeepsBraces(s[1..], next); }
    }
  }

  lemma EscapeCharRun(c: char, depth: int)
    requires depth > 0
    ensures BraceRun(EscapeChar(c), depth)
         == if BraceStep(depth, c) <= 0 then None else Some(BraceStep(depth, c))
  {
    assert [c][1..] == "";
    assert BraceRun([c], depth) == if BraceStep(depth, c) <= 0 then None else Some(BraceStep(depth, c));
    if c == '\"' || c == '\\' { assert EscapeChar(c)[1..] == [c]; }
  }

  // Both kinds of brackets, outside strings

  function Run(s: string, st: Scan): Option<Scan> {
    if s == "" then Some(st)
    else
      var next := ScanStep(st, s[0]);
      if next.depth <= 0 then None else Run(s[1..], next)
  }

  lemma {:induction false} RunConcat(s: string, t: string, st: Scan)
    ensures Run(s + t, st) == match Run(s, st) case None => None case Some(mid) => Run(t, mid)
  {
    if s == "" {
      assert s + t == t;
    } else {
      assert (s + t)[1..] == s[1..] + t;
      var next := ScanStep(st, s[0]);
      if next.depth > 0 { RunConcat(s[1..], t, next); }
    }
  }

  /** The scanner outside strings, at some depth. */
  function Outside(depth: int): Scan { Scan(depth, false, false) }

  /** `s` can stand anywhere inside brackets: the scanner leaves it as it came. */
  ghost predicate Neutral(s: string) {
    forall depth: int | depth > 0 :: Run(s, Outside(depth)) == Some(Outside(depth))
  }

  lemma NeutralConcat(s: string, t: string)
    requires Neutral(s) && Neutral(t)
    ensures Neutral(s + t)
  {
    forall depth: int | depth > 0 ensures Run(s + t, Outside(depth)) == Some(Outside(depth)) {
      RunConcat(s, t, Outside(depth));
    }
  }

  predicate IsQuiet(c: char) {
    c != '\"' && c != '\\' && c != '{' && c != '}' && c != '[' && c != ']'
  }

  lemma {:induction false} QuietIsNeutral(s: string)
    requires forall i | 0 <= i < |s| :: IsQuiet(s[i])
    ensures Neutral(s)
  {
    if s != "" {
      QuietIsNeutral(s[1..]);
      forall depth: int | depth > 0 ensures Run(s, Outside(depth)) == Some(Outside(depth)) {
        assert ScanStep(Outside(depth), s[0]) == Outside(depth);
      }
    }
  }

  predicate EndsInBackslash(s: string) { s != "" && s[|s| - 1] == '\\' }

  lemma EscapeCharScan(c: char, depth: int, slash: bool)
    requires depth > 0
    ensures Run(EscapeChar(c), Scan(depth, true, slash)) == Some(Scan(depth, true, c == '\\'))
  {
    var pair := c == '\"' || c == '\\';
    assert [c][1..] == "";
    assert Run([c], Scan(depth, true, pair || slash)) == Some(Scan(depth, !(c == '\"' && !(pair || slash)), c == '\\'));
    if pair { assert EscapeChar(c)[1..] == [c]; }
  }

  /** Inside a string nothing escaped ends it; only a last backslash is remembered. */
  lemma {:induction false} EscapeScan(s: string, depth: int, slash: bool)
    requires depth > 0
    ensures Run(Escape(s), Scan(depth, true, slash))
         == Some(Scan(depth, true, if s == "" then slash else EndsInBackslash(s)))
  {
    if s != "" {
      var c, rest := EscapeChar(s[0]), s[1..];
      EscapeCharScan(s[0], depth, slash);
      RunConcat(c, Escape(rest), Scan(depth, true, slash));
      EscapeScan(rest, depth, s[0] == '\\');
      assert rest != "" ==> rest[|rest| - 1] == s[|s| - 1];
    }
  }

  /** What the scanner makes of a printed string: it finds the closing quote
      unless a backslash stands before it. */
  lemma QuotedRun(s: string, depth: int)
    requires depth > 0
    ensures Run(Quote(Escape(s)), Outside(depth)) == Some(Scan(depth, EndsInBackslash(s), false))
  {
    var inside := Scan(depth, true, false);
    assert Run("\"", Outside(depth)) == Some(inside);
    RunConcat("\"", Escape(s), Outside(depth));
    EscapeScan(s, depth, false);
    RunConcat("\"" + Escape(s), "\"", Outside(depth));
    assert "\""[1..] == "";
  }

  lemma QuotedIsNeutral(s: string)
    requires !EndsInBackslash(s)
    ensures Neutral(Quote(Escape(s)))
  {
    forall depth: int | depth > 0
      ensures Run(Quote(Escape(s)), Outside(depth)) == Some(Outside(depth))
    {
      QuotedRun(s, depth);
    }
  }

  lemma BracketedIsNeutral(open: char, s: string, close: char)
    requires (open == '{' && close == '}') || (open == '[' && close == ']')
    requires Neutral(s)
    ensures Neutral([open] + s + [close])
  {
    forall depth: int | depth > 0
      ensures Run([open] + s + [close], Outside(depth)) == Some(Outside(depth))
    {
      assert [open][1..] == "" && [close][1..] == "";
      assert Run([open], Outside(depth)) == Some(Outside(depth + 1));
      assert Run([close], Outside(depth + 1)) == Some(Outside(depth));
      RunConcat([open], s, Outside(depth));
      RunConcat([open] + s, [close], Outside(depth));
    }
  }

  lemma KeyIsNeutral(key: string)
    requires IsKey(key)
    ensures Neutral(Quote(key))
  {
    assert forall c | c in key :: IsKeyChar(c);
    EscapePlain(key);
    QuotedIsNeutral(key);
  }

  lemma FieldIsNeutral(field: Field)
    requires IsKey(field.0) && Neutral(field.1)
    ensures Neutral(FieldText(field))
  {
    KeyIsNeutral(field.0);
    QuietIsNeutral(":");
    NeutralConcat(Quote(field.0), ":");
    NeutralConcat(Quote(field.0) + ":", field.1);
    assert FieldText(field) == Quote(field.0) + ":" + field.1;
  }

  lemma {:induction false} FieldsAreNeutral(fields: seq<Field>)
    requires forall i | 0 <= i < |fields| :: IsKey(fields[i].0) && Neutral(fields[i].1)
    ensures Neutral(Fields(fields))
  {
    if fields == [] {
      QuietIsNeutral("");
      assert Fields(fields) == "";
    } else {
      FieldIsNeutral(fields[0]);
      if |fields| > 1 {
        FieldsAreNeutral(fields[1..]);
        QuietIsNeutral(",");
        NeutralConcat(FieldText(fields[0]), ",");
        NeutralConcat(FieldText(fields[0]) + ",", Fields(fields[1..]));
      }
    }
  }

  lemma {:induction false} RunPrefix(s: string, t: string, st: Scan)
    requires s <= t && Run(t, st).Some?
    ensures Run(s, st).Some?
  {
    if s != "" { RunPrefix(s[1..], t[1..], ScanStep(st, s[0])); }
  }

  lemma {:induction false} PayloadEndsLast(s: string, st: Scan)
    requires s != "" && Run(s, st).Some?
    ensures PayloadEnd(s, st) == |s|
  {
    if |s| > 1 { PayloadEndsLast(s[1..], ScanStep(st, s[0])); }
  }

  /** A payload that is cut off is taken as far as it goes. */
  lemma CutPayloadEndsLast(body: string, k: nat)
    requires Neutral(body) && 0 < k <= |body| + 2
    ensures PayloadEnd(("{" + body + "}")[..k], SCAN_START) == k
  {
    assert Run(body, Outside(1)) == Some(Outside(1));
    if k == 1 {
      assert ("{" + body + "}")[..1] == "{";
    } else if k == |body| + 2 {
      PayloadEndExact(body, "", Outside(1));
      var s := ("{" + body + "}")[..k];
      assert s[1..] == body + "}" + "";
    } else {
      var s := ("{" + body + "}")[..k];
      assert s[1..] == body[..k - 1];
      RunPrefix(body[..k - 1], body, Outside(1));
      PayloadEndsLast(body[..k - 1], Outside(1));
    }
  }

  /** The scan for the payload stops at its closing brace and nowhere earlier. */
  lemma {:induction false} PayloadEndExact(body: string, rest: string, st: Scan)
    requires st.depth > 0 && Run(body, st) == Some(Outside(1))
    ensures PayloadEnd(body + "}" + rest, st) == |body| + 1
  {
    var text := body + "}" + rest;
    if body != "" {
      assert text[1..] == body[1..] + "}" + rest;
      PayloadEndExact(body[1..], rest, ScanStep(st, body[0]));
    }
  }

  lemma PayloadCutExact(body: string, rest: string)
    requires Neutral(body)
    ensures PayloadEnd("{" + body + "}" + rest, SCAN_START) == |body| + 2
  {
    var text := "{" + body + "}" + rest;
    assert text[1..] == body + "}" + rest;
    assert Run(body, Outside(1)) == Some(Outside(1));
    PayloadEndExact(body, rest, Outside(1));
  }
}
