/**
 The key search and the value readers on objects as the serializers print
 them: what is printed is what is read.
 */
module JsonLaws {
  import opened Machine
  import opened LibC
  import opened Decimal
  import opened Json

  // Objects as the serializers print them

  type Field = (string, string)

  function FieldText(field: Field): string { "\"" + field.0 + "\":" + field.1 }

  function Fields(fields: seq<Field>): string {
    if fields == [] then ""
    else if |fields| == 1 then FieldText(fields[0])
    else FieldText(fields[0]) + "," + Fields(fields[1..])
  }

  function Object(fields: seq<Field>): string { "{" + Fields(fields) + "}" }

  function Quote(s: string): string { "\"" + s + "\"" }

  predicate IsKeyChar(c: char) { 'a' <= c <= 'z' || c == '_' }

  predicate IsKey(key: string) {
    |key| > 0 && forall i | 0 <= i < |key| :: IsKeyChar(key[i])
  }

  /** Every quote has a backslash in front of it. */
  predicate Guarded(s: string) {
    forall i | 0 <= i < |s| && s[i] == '\"' :: i > 0 && s[i - 1] == '\\'
  }

  /** A value in which no key can seem to begin. */
  predicate SafeValue(v: string) {
    '\"' !in v || (|v| >= 2 && v == Quote(v[1..|v| - 1]) && Guarded(v[1..|v| - 1]))
  }

  lemma {:induction false} EscapeIsGuarded(s: string)
    ensures Guarded(Escape(s))
  {
    if s != "" { EscapeIsGuarded(s[1..]); }
  }

  lemma QuotedIsSafe(s: string)
    ensures SafeValue(Quote(Escape(s)))
  {
    EscapeIsGuarded(s);
    assert Quote(Escape(s))[1..|Quote(Escape(s))| - 1] == Escape(s);
  }

  /** A text that is searched for to find `key`. */
  predicate Seeks(pattern: string, key: string) {
    && |pattern| >= |key| + 3
    && pattern[0] == pattern[|key| + 1] == '\"'
    && (pattern[|key| + 2] == ':' || pattern[|key| + 2] == ' ')
    && forall j | 0 <= j < |key| :: pattern[1 + j] == key[j]
  }

  lemma BothSeek(key: string)
    ensures Seeks(Pattern(key), key) && Seeks(SpacedPattern(key), key)
  {
  }

  lemma DifferAt(s: string, t: string) returns (j: nat)
    requires |s| == |t| && s != t
    ensures j < |s| && s[j] != t[j]
  {
    j :| j < |s| && s[j] != t[j];
  }

  /** No match begins in another field's key. */
  lemma NoMatchInKey(field: Field, rest: string, key: string, pattern: string, i: nat)
    requires Seeks(pattern, key)
    requires IsKey(field.0) && IsKey(key) && field.0 != key && i < |field.0| + 3
    ensures !MatchAt(FieldText(field) + rest, i, pattern)
  {
    var text, name, m, n := FieldText(field) + rest, field.0, |field.0|, |key|;
    assert text[0] == text[m + 1] == '\"' && text[m + 2] == ':';
    assert forall j | 0 <= j < m :: text[1 + j] == name[j];
    var d := 0;
    if i == 0 {
      if m == n {
        var j := DifferAt(name, key);
        d := 1 + j;
      } else {
        d := 1 + if m < n then m else n;
      }
    } else if i == m + 1 {
      d := 1;
    } else if i <= m {
      assert text[i] == name[i - 1];
    }
    assert 1 <= d <= n ==> pattern[d] == key[d - 1];
    Mismatch(text, i, pattern, d);
  }

  /** What can stand behind a value. */
  predicate Stops(rest: string) { rest == "" || rest[0] == ',' || rest[0] == '}' || rest[0] == ']' }

  /** Where the text differs from a pattern that begins at a quote of the value. */
  lemma DifferInQuoted(v: string, rest: string, key: string, pattern: string, j: nat) returns (d: nat)
    requires Seeks(pattern, key)
    requires SafeValue(v) && IsKey(key) && j < |v| && v[j] == '\"' && Stops(rest)
    ensures d < |pattern| && (j + d < |v + rest| ==> (v + rest)[j + d] != pattern[d])
  {
    var text, n, end := v + rest, |key|, |v| - 1;
    assert v[j] in v && (rest != "" ==> text[|v|] == rest[0]);
    var inner, second := v[1..end], j + n + 1;
    if second < end {
      d := if text[second] == '\"' then n else n + 1;
      assert text[second] == inner[second - 1] && text[second - 1] == inner[second - 2];
    } else if second == end {
      d := n + 2;
    } else {
      d := if j < end then end - j else 1;
    }
    assert 1 <= d <= n ==> pattern[d] == key[d - 1];
  }

  /** No match begins in a safe value, nor at the character behind it. */
  lemma NoMatchInValue(v: string, rest: string, key: string, pattern: string, j: nat)
    requires Seeks(pattern, key)
    requires SafeValue(v) && IsKey(key) && j <= |v| && Stops(rest)
    ensures !MatchAt(v + rest, j, pattern)
  {
    hide SafeValue, IsKey;
    if j < |v| && v[j] == '\"' {
      var d := DifferInQuoted(v, rest, key, pattern, j);
      Mismatch(v + rest, j, pattern, d);
    } else {
      assert rest != "" ==> (v + rest)[|v|] == rest[0];
      Mismatch(v + rest, j, pattern, 0);
    }
  }

  lemma NoMatchInField(field: Field, rest: string, key: string, pattern: string, i: nat)
    requires Seeks(pattern, key)
    requires IsKey(field.0) && IsKey(key) && field.0 != key && SafeValue(field.1)
    requires i <= |FieldText(field)| && Stops(rest)
    ensures !MatchAt(FieldText(field) + rest, i, pattern)
  {
    var head := |field.0| + 3;
    if i < head {
      NoMatchInKey(field, rest, key, pattern, i);
    } else {
      var text, inner := FieldText(field) + rest, field.1 + rest;
      NoMatchInValue(field.1, rest, key, pattern, i - head);
      assert text[head..] == inner;
      if i + |pattern| <= |text| {
        assert text[i..i + |pattern|] == inner[i - head..i - head + |pattern|];
      }
    }
  }

  /** What stands behind the value of field `k`, when `end` stands behind all fields. */
  function Behind(fields: seq<Field>, k: nat, end: string): string
    requires k < |fields|
  {
    if k == |fields| - 1 then end else "," + (Fields(fields[k + 1..]) + end)
  }

  /** The search for the key of field `k` comes to it: the keys before it differ,
      and their values are safe. */
  predicate Leading(fields: seq<Field>, k: nat) {
    && k < |fields| && IsKey(fields[k].0)
    && forall j | 0 <= j < k :: IsKey(fields[j].0) && fields[j].0 != fields[k].0 && SafeValue(fields[j].1)
  }

  /** And its value can be read. */
  predicate Findable(fields: seq<Field>, k: nat) {
    Leading(fields, k) && fields[k].1 != "" && fields[k].1[0] != ' ' && fields[k].1[0] != '\t'
  }

  lemma FirstField(fields: seq<Field>, end: string)
    requires fields != []
    ensures Fields(fields) + end == FieldText(fields[0]) + Behind(fields, 0, end)
  {
    if |fields| > 1 {
      var first, rest := FieldText(fields[0]), Fields(fields[1..]);
      Assoc(first + ",", rest, end);
      Assoc(first, ",", rest + end);
    }
  }

  lemma BehindShifts(fields: seq<Field>, k: nat, end: string)
    requires 0 < k < |fields|
    ensures Behind(fields[1..], k - 1, end) == Behind(fields, k, end)
  {
    assert fields[1..][k..] == fields[k + 1..];
  }

  /** `p` is where field `k` stands in `text`. */
  predicate StandsAt(text: string, p: Option<nat>, field: Field, behind: string) {
    p.Some? && p.value <= |text| && text[p.value..] == FieldText(field) + behind
  }

  lemma StandsFirst(field: Field, behind: string)
    ensures StandsAt(FieldText(field) + behind, Strstr(FieldText(field) + behind, Pattern(field.0)), field, behind)
  {
    var text := FieldText(field) + behind;
    assert text[..|Pattern(field.0)|] == Pattern(field.0);
    StrstrIs(text, Pattern(field.0), 0);
  }

  /** The search passes over a field with another key. */
  lemma PassesField(field: Field, rest: string, target: Field, behind: string)
    requires IsKey(field.0) && IsKey(target.0) && field.0 != target.0 && SafeValue(field.1)
    requires StandsAt(rest, Strstr(rest, Pattern(target.0)), target, behind)
    ensures var text := FieldText(field) + ("," + rest);
            StandsAt(text, Strstr(text, Pattern(target.0)), target, behind)
  {
    var first, pattern := FieldText(field) + ",", Pattern(target.0);
    Assoc(FieldText(field), ",", rest);
    BothSeek(target.0);
    forall i: nat | i < |first| ensures !MatchAt(first + rest, i, pattern) {
      NoMatchInField(field, "," + rest, target.0, pattern, i);
    }
    StrstrSkips(first, rest, pattern);
    DropPast(first, rest, Strstr(rest, pattern).value);
  }

  lemma {:induction false} KeyStandsWhereItShould(fields: seq<Field>, k: nat, end: string)
    requires Leading(fields, k)
    ensures StandsAt(Fields(fields) + end, Strstr(Fields(fields) + end, Pattern(fields[k].0)),
                     fields[k], Behind(fields, k, end))
    decreases k
  {
    FirstField(fields, end);
    if k == 0 {
      StandsFirst(fields[0], Behind(fields, 0, end));
    } else {
      KeyStandsWhereItShould(fields[1..], k - 1, end);
      BehindShifts(fields, k, end);
      PassesField(fields[0], Fields(fields[1..]) + end, fields[k], Behind(fields, k, end));
    }
  }

  /** What is left of an object when its end is cut off or unknown. */
  function OpenObject(fields: seq<Field>): string { "{" + Fields(fields) }

  lemma OpenStands(fields: seq<Field>, k: nat, end: string)
    requires Leading(fields, k)
    ensures StandsAt(OpenObject(fields) + end, Strstr(OpenObject(fields) + end, Pattern(fields[k].0)),
                     fields[k], Behind(fields, k, end))
  {
    KeyStandsWhereItShould(fields, k, end);
    Assoc("{", Fields(fields), end);
    StandsBehindBrace(Fields(fields) + end, fields[k], Behind(fields, k, end));
  }

  /**
   The first-match search is exact on printed objects: it finds field `k` and
   nothing that only looks like it, whatever the values before it contain, and
   whatever stands behind the fields.
   */
  lemma FindsInOpen(fields: seq<Field>, k: nat, end: string)
    requires Findable(fields, k)
    ensures ValueOf(OpenObject(fields) + end, fields[k].0) == Some(fields[k].1 + Behind(fields, k, end))
  {
    OpenStands(fields, k, end);
    ValueWhereKeyStands(OpenObject(fields) + end, fields[k], Behind(fields, k, end));
  }

  lemma ObjectIsOpen(fields: seq<Field>, tail: string)
    ensures Object(fields) + tail == OpenObject(fields) + ("}" + tail)
  {
    Assoc(OpenObject(fields), "}", tail);
  }

  lemma FindsTheField(fields: seq<Field>, k: nat, tail: string)
    requires Findable(fields, k)
    ensures ValueOf(Object(fields) + tail, fields[k].0) == Some(fields[k].1 + Behind(fields, k, "}" + tail))
  {
    ObjectIsOpen(fields, tail);
    FindsInOpen(fields, k, "}" + tail);
  }

  lemma StandsBehindBrace(inner: string, field: Field, behind: string)
    requires StandsAt(inner, Strstr(inner, Pattern(field.0)), field, behind)
    ensures StandsAt("{" + inner, Strstr("{" + inner, Pattern(field.0)), field, behind)
  {
    BothSeek(field.0);
    Mismatch("{" + inner, 0, Pattern(field.0), 0);
    StrstrSkips("{", inner, Pattern(field.0));
    DropPast("{", inner, Strstr(inner, Pattern(field.0)).value);
  }

  lemma ValueWhereKeyStands(json: string, field: Field, behind: string)
    requires IsKey(field.0)
    requires StandsAt(json, Strstr(json, Pattern(field.0)), field, behind)
    ensures ValueOf(json, field.0) == Some(SkipBlanks(field.1 + behind))
  {
    ValueIsBehindColon(field.0, FieldText(field) + behind, field.1, behind);
  }

  lemma ValueIsBehindColon(key: string, found: string, v: string, behind: string)
    requires IsKey(key) && found == FieldText((key, v)) + behind
    ensures Strchr(found, ':') == Some(|key| + 2)
    ensures found[|key| + 3..] == v + behind
  {
    var quoted := Quote(key);
    assert forall j | 0 <= j < |key| :: quoted[1 + j] == key[j];
    assert found == quoted + [':'] + (v + behind);
    StrchrIs(quoted, ':', v + behind);
  }

  // Values read back

  lemma {:induction false} UnquoteEscape(s: string, room: nat, rest: string, text: string)
    requires |s| <= room && rest != "" && rest[0] == '\"' && text == Escape(s) + rest
    ensures Unquote(text, room) == s
    decreases s
  {
    if s != "" {
      var c := EscapeChar(s[0]);
      assert text == c + (Escape(s[1..]) + rest);
      assert text[|c|..] == Escape(s[1..]) + rest;
      UnquoteEscape(s[1..], room - 1, rest, text[|c|..]);
    }
  }

  /** What `json_get_string` makes of a value text. */
  predicate ReadsAs(v: string, room: nat, s: string) {
    v != "" && v[0] == '\"' && Unquote(v[1..], room) == s
  }

  lemma QuotedReadsAs(e: string, room: nat, behind: string, s: string)
    requires Unquote(e + ("\"" + behind), room) == s
    ensures ReadsAs(Quote(e) + behind, room, s)
  {
    var v := Quote(e) + behind;
    assert v[1..] == e + ("\"" + behind);
  }

  lemma GetStringOf(json: string, key: string, room: nat, v: string, s: string)
    requires ValueOf(json, key) == Some(v) && ReadsAs(v, room, s)
    ensures GetString(json, key, room + 1) == Some(s)
  {
  }

  /** Reading a printed string gives the string, if the buffer has room for it. */
  lemma OpenString(fields: seq<Field>, k: nat, end: string, s: string, room: nat)
    requires Findable(fields, k) && fields[k].1 == Quote(Escape(s)) && |s| <= room
    ensures GetString(OpenObject(fields) + end, fields[k].0, room + 1) == Some(s)
  {
    FindsInOpen(fields, k, end);
    var e, behind := Escape(s), Behind(fields, k, end);
    UnquoteEscape(s, room, "\"" + behind, e + ("\"" + behind));
    QuotedReadsAs(e, room, behind, s);
    GetStringOf(OpenObject(fields) + end, fields[k].0, room, fields[k].1 + behind, s);
  }

  lemma ReadsString(fields: seq<Field>, k: nat, tail: string, s: string, room: nat)
    requires Findable(fields, k) && fields[k].1 == Quote(Escape(s)) && |s| <= room
    ensures GetString(Object(fields) + tail, fields[k].0, room + 1) == Some(s)
  {
    hide GetString;
    ObjectIsOpen(fields, tail);
    OpenString(fields, k, "}" + tail, s, room);
  }

  /** Behind the value of field `k` stands no digit. */
  predicate EndsNumber(fields: seq<Field>, k: nat, end: string) {
    k < |fields| && (k == |fields| - 1 ==> end == "" || !IsDigit(end[0]))
  }

  lemma OpenU64(fields: seq<Field>, k: nat, end: string, n: U64)
    requires Findable(fields, k) && fields[k].1 == Numeral(n) && EndsNumber(fields, k, end)
    ensures GetU64(OpenObject(fields) + end, fields[k].0) == Some(n)
  {
    FindsInOpen(fields, k, end);
    StrtoullOfNumeral(n, Behind(fields, k, end));
  }

  lemma ReadsU64(fields: seq<Field>, k: nat, tail: string, n: U64)
    requires Findable(fields, k) && fields[k].1 == Numeral(n)
    ensures GetU64(Object(fields) + tail, fields[k].0) == Some(n)
  {
    hide GetU64;
    ObjectIsOpen(fields, tail);
    OpenU64(fields, k, "}" + tail, n);
  }

  lemma OpenInt(fields: seq<Field>, k: nat, end: string, n: I32)
    requires Findable(fields, k) && n >= 0 && fields[k].1 == Numeral(n) && EndsNumber(fields, k, end)
    ensures GetInt(OpenObject(fields) + end, fields[k].0) == Some(n)
  {
    FindsInOpen(fields, k, end);
    ToI32Exact(n);
    StrtolOfNumeral(n, Behind(fields, k, end));
  }

  lemma ReadsInt(fields: seq<Field>, k: nat, tail: string, n: I32)
    requires Findable(fields, k) && n >= 0 && fields[k].1 == Numeral(n)
    ensures GetInt(Object(fields) + tail, fields[k].0) == Some(n)
  {
    hide GetInt;
    ObjectIsOpen(fields, tail);
    OpenInt(fields, k, "}" + tail, n);
  }

  lemma OpenSigned(fields: seq<Field>, k: nat, end: string, n: I64)
    requires Findable(fields, k) && fields[k].1 == SignedNumeral(n) && EndsNumber(fields, k, end)
    ensures var r := GetU64(OpenObject(fields) + end, fields[k].0); r.Some? && ToI64(r.value) == n
  {
    FindsInOpen(fields, k, end);
    StrtoullOfSigned(n, Behind(fields, k, end));
  }

  lemma ReadsSigned(fields: seq<Field>, k: nat, tail: string, n: I64)
    requires Findable(fields, k) && fields[k].1 == SignedNumeral(n)
    ensures var r := GetU64(Object(fields) + tail, fields[k].0); r.Some? && ToI64(r.value) == n
  {
    hide GetU64, ToI64;
    ObjectIsOpen(fields, tail);
    OpenSigned(fields, k, "}" + tail, n);
  }

  predicate IsPlain(s: string) { '\"' !in s && '\\' !in s }

  lemma {:induction false} EscapePlain(s: string)
    requires IsPlain(s)
    ensures Escape(s) == s
  {
    if s != "" {
      EscapePlain(s[1..]);
      assert [s[0]] + s[1..] == s;
    }
  }
}
