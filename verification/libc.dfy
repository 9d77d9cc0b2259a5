/**
 The C library as the program uses it: text in fixed buffers, `snprintf`,
 `strstr` and `strchr`.
 */
module LibC {
  import opened Machine

  /** The C string at the start of a buffer: everything before the first NUL. */
  function TextOf(buf: seq<char>): (s: CString)
    ensures s <= buf && (|s| < |buf| ==> buf[|s|] == '\0')
  {
    if buf == [] || buf[0] == '\0' then "" else [buf[0]] + TextOf(buf[1..])
  }

  lemma {:induction false} TextOfIs(buf: seq<char>, s: CString)
    requires s <= buf && |s| < |buf| && buf[|s|] == '\0'
    ensures TextOf(buf) == s
  {
    if s != "" {
      assert buf[0] == s[0] && s[0] in s;
      TextOfIs(buf[1..], s[1..]);
    }
  }

  ghost predicate Holds(buf: array<char>, s: CString)
    reads buf
  {
    |s| < buf.Length && buf[..|s|] == s && buf[|s|] == '\0'
  }

  /** `strlen` and friends see exactly the text a buffer holds. */
  lemma TextInBuffer(buf: array<char>, s: CString)
    requires Holds(buf, s)
    ensures TextOf(buf[..]) == s
  {
    assert buf[..][..|s|] == buf[..|s|];
    TextOfIs(buf[..], s);
  }

  /**
   `snprintf(buf + at, sizeof(buf) - at, "%s", text)`: writes what fits and
   always a NUL, and returns the length it wanted to write. The requires is the
   caller's duty not to let `sizeof(buf) - at` wrap around.
   */
  method Snprintf(buf: array<char>, at: nat, text: CString) returns (n: nat)
    requires at <= buf.Length
    modifies buf
    ensures n == |text|
    ensures buf[..at] == old(buf[..at])
    ensures at + |text| < buf.Length ==> buf[at..at + |text|] == text && buf[at + |text|] == '\0'
    ensures at < buf.Length <= at + |text| ==>
              buf[at..buf.Length - 1] == text[..buf.Length - 1 - at] && buf[buf.Length - 1] == '\0'
  {
    if at < buf.Length {
      var k := if at + |text| < buf.Length then |text| else buf.Length - 1 - at;
      forall i | 0 <= i < k { buf[at + i] := text[i]; }
      buf[at + k] := '\0';
      assert forall i | 0 <= i < k :: buf[at..at + k][i] == text[i];
    }
    n := |text|;
  }

  /** Printing behind a held text appends to it, as long as there is room. */
  method Append(buf: array<char>, at: nat, text: CString, ghost held: CString) returns (n: nat)
    requires Holds(buf, held) && |held| == at && at + |text| < buf.Length
    modifies buf
    ensures n == |text| && Holds(buf, held + text)
  {
    n := Snprintf(buf, at, text);
    assert buf[..at + |text|] == buf[..at] + buf[at..at + |text|];
  }

  lemma Assoc<T>(a: seq<T>, b: seq<T>, c: seq<T>)
    ensures a + b + c == a + (b + c)
  {
  }

  lemma Regroup<T>(got: seq<T>, x: T, more: seq<T>)
    ensures got + ([x] + more) == got + [x] + more
  {
  }

  lemma SplitEqual(a: string, b: string, c: string, d: string)
    requires a + b == c + d && |a| == |c|
    ensures a == c && b == d
  {
    assert a == (a + b)[..|a|] == (c + d)[..|c|] == c;
    assert b == (a + b)[|a|..] == (c + d)[|c|..] == d;
  }

  lemma DropPast(a: string, b: string, n: nat)
    requires n <= |b|
    ensures (a + b)[|a| + n..] == b[n..]
  {
  }

  predicate MatchAt(text: string, i: nat, pattern: string) {
    i + |pattern| <= |text| && text[i..i + |pattern|] == pattern
  }

  lemma MatchShifts(text: string, i: nat, pattern: string)
    requires text != "" && i > 0
    ensures MatchAt(text, i, pattern) <==> MatchAt(text[1..], i - 1, pattern)
  {
    if i + |pattern| <= |text| {
      assert text[1..][i - 1..i - 1 + |pattern|] == text[i..i + |pattern|];
    }
  }

  /** One differing character is enough. */
  lemma Mismatch(text: string, i: nat, pattern: string, d: nat)
    requires d < |pattern| && (i + d < |text| ==> text[i + d] != pattern[d])
    ensures !MatchAt(text, i, pattern)
  {
    if i + |pattern| <= |text| { assert text[i..i + |pattern|][d] == text[i + d]; }
  }

  lemma SuffixMatch(a: string, b: string, pattern: string, k: nat)
    ensures MatchAt(a + b, |a| + k, pattern) ==> MatchAt(b, k, pattern)
  {
    if |a| + k + |pattern| <= |a + b| {
      assert (a + b)[|a| + k..|a| + k + |pattern|] == b[k..k + |pattern|];
    }
  }

  lemma SliceOfSlice(s: string, a: nat, b: nat, i: nat, k: nat)
    requires a <= b <= |s| && i <= k <= b - a
    ensures s[a..b][i..k] == s[a + i..a + k]
  {
    var t := s[a..b];
    assert forall x | i <= x < k :: t[x] == s[a + x];
    assert t[i..k] == s[a + i..a + k];
  }

  /** What stands in a part stands in the whole. */
  lemma PartMatch(text: string, a: nat, b: nat, pattern: string, j: nat)
    requires a <= b <= |text|
    ensures MatchAt(text[a..b], j, pattern) ==> MatchAt(text, a + j, pattern)
  {
    if j + |pattern| <= b - a {
      SliceOfSlice(text, a, b, j, j + |pattern|);
    }
  }

  lemma {:induction false} StrstrSkips(a: string, b: string, pattern: string)
    requires forall i: nat | i < |a| :: !MatchAt(a + b, i, pattern)
    ensures Strstr(a + b, pattern) == match Strstr(b, pattern) case None => None case Some(p) => Some(|a| + p)
  {
    hide MatchAt;
    if a == "" {
      assert a + b == b;
    } else {
      assert (a + b)[1..] == a[1..] + b;
      forall i: nat | i < |a[1..]| ensures !MatchAt(a[1..] + b, i, pattern) {
        MatchShifts(a + b, i + 1, pattern);
      }
      StrstrSkips(a[1..], b, pattern);
      assert !MatchAt(a + b, 0, pattern);
    }
  }

  /** `strstr`: the first place where `pattern` stands. */
  function Strstr(text: string, pattern: string): (r: Option<nat>)
    ensures r.Some? ==> r.value + |pattern| <= |text|
  {
    if MatchAt(text, 0, pattern) then Some(0)
    else if text == "" then None
    else
      match Strstr(text[1..], pattern)
      case None => None
      case Some(k) => Some(k + 1)
  }

  lemma {:induction false} StrstrIsFirst(text: string, pattern: string)
    ensures var r := Strstr(text, pattern);
            && (r.Some? ==> MatchAt(text, r.value, pattern))
            && (forall j: nat | MatchAt(text, j, pattern) :: r.Some? && r.value <= j)
  {
    if !MatchAt(text, 0, pattern) && text != "" {
      StrstrIsFirst(text[1..], pattern);
      var r := Strstr(text, pattern);
      if r.Some? { MatchShifts(text, r.value, pattern); }
      forall j: nat | MatchAt(text, j, pattern) ensures r.Some? && r.value <= j {
        MatchShifts(text, j, pattern);
      }
    }
  }

  lemma StrstrIs(text: string, pattern: string, i: nat)
    requires MatchAt(text, i, pattern)
    requires forall j: nat | j < i :: !MatchAt(text, j, pattern)
    ensures Strstr(text, pattern) == Some(i)
  {
    StrstrIsFirst(text, pattern);
  }

  /** `strchr`: the first place of a character. */
  function Strchr(text: string, c: char): (r: Option<nat>)
    ensures r.Some? ==> r.value < |text| && text[r.value] == c && c !in text[..r.value]
    ensures r.None? ==> c !in text
  {
    if text == "" then None
    else if text[0] == c then Some(0)
    else
      match Strchr(text[1..], c)
      case None => None
      case Some(k) =>
        assert text[..k + 1] == [text[0]] + text[1..][..k];
        Some(k + 1)
  }

  lemma {:induction false} StrchrIs(before: string, c: char, rest: string)
    requires c !in before
    ensures Strchr(before + [c] + rest, c) == Some(|before|)
  {
    var text := before + [c] + rest;
    if before != "" {
      assert text[0] == before[0] && before[0] in before;
      assert text[1..] == before[1..] + [c] + rest;
      StrchrIs(before[1..], c, rest);
    }
  }
}
