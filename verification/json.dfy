/**
 The hand-written JSON helpers of `src/protocol.c`: escaping, the search for a
 key with `strstr`, and the value readers. Positions in a text are given by
 what is left of it from there on.
 */
module Json {
  import opened Machine
  import opened Decimal
  import opened LibC

  // Escaping

  function EscapeChar(c: char): string {
    if c == '\"' || c == '\\' then ['\\', c] else [c]
  }

  function Escape(s: string): string {
    if s == "" then "" else EscapeChar(s[0]) + Escape(s[1..])
  }

  /** How many characters the loop takes while `room` is left. */
  function Taken(s: string, room: int): (n: nat)
    ensures n <= |s|
  {
    if s == "" || room <= 0 then 0 else 1 + Taken(s[1..], room - |EscapeChar(s[0])|)
  }

  lemma {:induction false} EscapeConcat(s: string, t: string)
    ensures Escape(s + t) == Escape(s) + Escape(t)
  {
    if s == "" {
      assert s + t == t;
    } else {
      assert (s + t)[1..] == s[1..] + t;
      EscapeConcat(s[1..], t);
    }
  }

  lemma {:induction false} EscapeIsText(s: CString)
    ensures '\0' !in Escape(s) && |s| <= |Escape(s)| <= 2 * |s|
  {
    if s != "" { EscapeIsText(s[1..]); }
  }

  /** A destination of twice the length and two more never cuts. */
  lemma {:induction false} TakesAll(s: string, room: int)
    requires 2 * |s| <= room
    ensures Taken(s, room) == |s|
  {
    if s != "" { TakesAll(s[1..], room - |EscapeChar(s[0])|); }
  }

  /** `json_escape`: the guard leaves room for one more pair and the NUL. */
  method JsonEscape(src: CString, dst: array<char>)
    requires dst.Length >= 2
    modifies dst
    ensures Taken(src, dst.Length - 2) == |src| ==> '\0' !in Escape(src) && Holds(dst, Escape(src))
    ensures '\0' !in Escape(src[..Taken(src, dst.Length - 2)])
    ensures Holds(dst, Escape(src[..Taken(src, dst.Length - 2)]))
  {
    var j, i := 0, 0;
    EscapeIsText(src[..0]);
    while i < |src| && j < dst.Length - 2
      invariant i <= |src| && j == |Escape(src[..i])| < dst.Length
      invariant dst[..j] == Escape(src[..i])
      invariant Taken(src, dst.Length - 2) == i + Taken(src[i..], dst.Length - 2 - j)
    {
      EscapeSnoc(src, i);
      if src[i] == '\"' || src[i] == '\\' {
        dst[j] := '\\';
        j := j + 1;
      }
      dst[j] := src[i];
      j := j + 1;
      i := i + 1;
      assert dst[..j] == Escape(src[..i]);
    }
    dst[j] := '\0';
    EscapeIsText(src[..i]);
    assert dst[..j] == Escape(src[..i]);
    assert src[..|src|] == src;
  }

  lemma EscapeSnoc(s: string, i: nat)
    requires i < |s|
    ensures Escape(s[..i + 1]) == Escape(s[..i]) + EscapeChar(s[i])
    ensures s[i..][1..] == s[i + 1..]
  {
    assert s[..i + 1] == s[..i] + [s[i]];
    EscapeConcat(s[..i], [s[i]]);
    assert Escape([s[i]]) == EscapeChar(s[i]);
  }

  // Finding a key

  function Pattern(key: string): string { "\"" + key + "\":" }

  function SpacedPattern(key: string): string { "\"" + key + "\" :" }

  function SkipBlanks(s: string): (r: string)
    ensures |r| <= |s|
  {
    if s != "" && (s[0] == ' ' || s[0] == '\t') then SkipBlanks(s[1..]) else s
  }

  /** The first occurrence of the key, in either spelling. */
  function FindKey(json: string, key: string): Option<nat> {
    var p := Strstr(json, Pattern(key));
    if p.Some? then p else Strstr(json, SpacedPattern(key))
  }

  /** `json_find_key`: the text from the key's value on. */
  function ValueOf(json: string, key: string): Option<string> {
    match FindKey(json, key)
    case None => None
    case Some(p) =>
      match Strchr(json[p..], ':')
      case None => None
      case Some(c) => Some(SkipBlanks(json[p..][c + 1..]))
  }

  method JsonFindKey(json: CString, key: CString) returns (p: Option<nat>)
    requires |key| <= 123
    ensures p.Some? <==> ValueOf(json, key).Some?
    ensures p.Some? ==> p.value <= |json| && json[p.value..] == ValueOf(json, key).value
  {
    var found := Strstr(json, Pattern(key));
    if found.None? {
      found := Strstr(json, SpacedPattern(key));
    }
    if found.None? {
      return None;
    }
    var colon := Strchr(json[found.value..], ':');
    if colon.None? {
      return None;
    }
    var at := found.value + colon.value + 1;
    assert json[found.value..][colon.value + 1..] == json[at..];
    at := PassBlanks(json, at);
    return Some(at);
  }

  method PassBlanks(json: CString, start: nat) returns (at: nat)
    requires start <= |json|
    ensures at <= |json| && json[at..] == SkipBlanks(json[start..])
  {
    at := start;
    while at < |json| && (json[at] == ' ' || json[at] == '\t')
      invariant at <= |json|
      invariant SkipBlanks(json[at..]) == SkipBlanks(json[start..])
    {
      assert json[at..][1..] == json[at + 1..];
      at := at + 1;
    }
  }

  // Reading values

  /** The loop of `json_get_string` behind the opening quote. */
  function Unquote(s: string, room: nat): (r: string)
    ensures |r| <= room
  {
    if s == "" || s[0] == '\"' || room == 0 then ""
    else if s[0] == '\\' && |s| > 1 then [s[1]] + Unquote(s[2..], room - 1)
    else [s[0]] + Unquote(s[1..], room - 1)
  }

  function GetString(json: string, key: string, size: nat): Option<string>
    requires size > 0
  {
    match ValueOf(json, key)
    case None => None
    case Some(v) => if v == "" || v[0] != '\"' then None else Some(Unquote(v[1..], size - 1))
  }

  function GetU64(json: string, key: string): Option<U64> {
    match ValueOf(json, key)
    case None => None
    case Some(v) => Some(Strtoull(v))
  }

  function GetInt(json: string, key: string): Option<I32> {
    match ValueOf(json, key)
    case None => None
    case Some(v) => Some(ToI32(Strtol(v)))
  }

  lemma {:induction false} UnquoteIsText(s: CString, room: nat)
    ensures '\0' !in Unquote(s, room)
  {
    if s == "" || s[0] == '\"' || room == 0 {
    } else if s[0] == '\\' && |s| > 1 {
      UnquoteIsText(s[2..], room - 1);
    } else {
      UnquoteIsText(s[1..], room - 1);
    }
  }

  lemma GetStringIsText(json: CString, key: string, size: nat)
    requires size > 0
    ensures var r := GetString(json, key, size); r.Some? ==> '\0' !in r.value && |r.value| < size
  {
    var v := ValueOf(json, key);
    if v.Some? && v.value != "" {
      ValueIsText(json, key);
      UnquoteIsText(v.value[1..], size - 1);
    }
  }

  lemma {:induction false} SkipBlanksIsSuffix(s: string)
    ensures SkipBlanks(s) == s[|s| - |SkipBlanks(s)|..]
  {
    if s != "" && (s[0] == ' ' || s[0] == '\t') { SkipBlanksIsSuffix(s[1..]); }
  }

  lemma ValueIsText(json: CString, key: string)
    ensures var v := ValueOf(json, key); v.Some? ==> '\0' !in v.value
  {
    var p := FindKey(json, key);
    if p.Some? {
      var c := Strchr(json[p.value..], ':');
      if c.Some? { SkipBlanksIsSuffix(json[p.value..][c.value + 1..]); }
    }
  }

  /** `json_get_string` */
  method JsonGetString(json: CString, key: CString, size: nat) returns (r: Option<CString>)
    requires |key| <= 123 && size > 0
    ensures r == GetString(json, key, size)
  {
    GetStringIsText(json, key, size);
    var p := JsonFindKey(json, key);
    if p.None? || p.value == |json| || json[p.value] != '\"' {
      return None;
    }
    assert json[p.value..][1..] == json[p.value + 1..];
    var text := CopyString(json, p.value + 1, size);
    return Some(text);
  }

  /** The copying loop of `json_get_string`. */
  method CopyString(json: CString, start: nat, size: nat) returns (text: CString)
    requires start <= |json| && size > 0
    ensures text == Unquote(json[start..], size - 1)
  {
    var out := new char[size];
    var at, i := start, 0;
    ghost var room, got := size - 1, "";
    ghost var whole := Unquote(json[start..], room);
    UnquoteIsText(json[start..], room);
    while at < |json| && json[at] != '\"' && i < size - 1
      invariant at <= |json| && i < size && room == size - 1 - i
      invariant out[..i] == got
      invariant Remaining(json, at, room, got, whole)
    {
      UnquoteStep(json, at, room, got, whole);
      if json[at] == '\\' && at + 1 < |json| {
        at := at + 1;
      }
      out[i] := json[at];
      got, room := got + [json[at]], room - 1;
      at := at + 1;
      i := i + 1;
    }
    out[i] := '\0';
    assert whole == got;
    TextInBuffer(out, whole);
    text := TextOf(out[..]);
  }

  /** `whole` is what was `got` and what the loop still finds. */
  ghost predicate Remaining(json: string, at: nat, room: nat, got: string, whole: string) {
    at <= |json| && whole == got + Unquote(json[at..], room)
  }

  lemma UnquoteStep(json: string, at: nat, room: nat, got: string, whole: string)
    requires at < |json| && json[at] != '\"' && room > 0 && Remaining(json, at, room, got, whole)
    ensures var q := if json[at] == '\\' && at + 1 < |json| then at + 1 else at;
            Remaining(json, q + 1, room - 1, got + [json[q]], whole)
  {
    var s, q := json[at..], if json[at] == '\\' && at + 1 < |json| then at + 1 else at;
    assert s[1..] == json[at + 1..];
    if |s| > 1 { assert s[2..] == json[at + 2..]; }
    Assoc(got, [json[q]], Unquote(json[q + 1..], room - 1));
  }

  method JsonGetU64(json: CString, key: CString) returns (r: Option<U64>)
    requires |key| <= 123
    ensures r == GetU64(json, key)
  {
    var p := JsonFindKey(json, key);
    if p.None? {
      return None;
    }
    return Some(Strtoull(json[p.value..]));
  }

  method JsonGetInt(json: CString, key: CString) returns (r: Option<I32>)
    requires |key| <= 123
    ensures r == GetInt(json, key)
  {
    var p := JsonFindKey(json, key);
    if p.None? {
      return None;
    }
    return Some(ToI32(Strtol(json[p.value..])));
  }
}
