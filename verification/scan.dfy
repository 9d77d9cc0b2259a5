/**
 The two bracket scanners of `src/protocol.c`. The one that splits blocks and
 transactions counts curly braces and knows nothing of strings; the one that
 cuts out a payload counts both kinds of brackets outside strings.
 */
module Scanners {
  import opened Machine

  // Splitting objects

  function BraceStep(depth: int, c: char): int {
    if c == '{' then depth + 1 else if c == '}' then depth - 1 else depth
  }

  /** How many characters of `s` the do-while loop takes when it has `depth` open braces. */
  function BraceEnd(s: string, depth: int): (n: nat)
    requires s != ""
    ensures 1 <= n <= |s|
  {
    var next := BraceStep(depth, s[0]);
    if next > 0 && |s| > 1 then 1 + BraceEnd(s[1..], next) else 1
  }

  method ScanObject(json: CString, start: nat) returns (p: nat)
    requires start < |json|
    ensures p == start + BraceEnd(json[start..], 0) <= |json|
  {
    var depth := 0;
    p := start;
    while true
      invariant start <= p < |json|
      invariant p + BraceEnd(json[p..], depth) == start + BraceEnd(json[start..], 0)
      decreases |json| - p
    {
      assert json[p..][1..] == json[p + 1..];
      if json[p] == '{' {
        depth := depth + 1;
      } else if json[p] == '}' {
        depth := depth - 1;
      }
      p := p + 1;
      if !(depth > 0 && p < |json|) {
        return;
      }
    }
  }

  // Cutting out a payload

  /** `slash`: the character before is a backslash. */
  datatype Scan = Scan(depth: int, inString: bool, slash: bool)

  function ScanStep(st: Scan, c: char): Scan {
    var slash := c == '\\';
    if c == '\"' && !st.slash then Scan(st.depth, !st.inString, slash)
    else if st.inString then Scan(st.depth, true, slash)
    else if c == '{' || c == '[' then Scan(st.depth + 1, false, slash)
    else if c == '}' || c == ']' then Scan(st.depth - 1, false, slash)
    else Scan(st.depth, false, slash)
  }

  function PayloadEnd(s: string, st: Scan): (n: nat)
    requires s != ""
    ensures 1 <= n <= |s|
  {
    var next := ScanStep(st, s[0]);
    if next.depth > 0 && |s| > 1 then 1 + PayloadEnd(s[1..], next) else 1
  }

  const SCAN_START := Scan(0, false, false)

  method ScanPayload(json: CString, start: nat) returns (q: nat)
    requires start < |json|
    ensures q == start + PayloadEnd(json[start..], SCAN_START) <= |json|
  {
    var depth, inString := 0, false;
    q := start;
    while true
      invariant start <= q < |json|
      invariant q + PayloadEnd(json[q..], Scan(depth, inString, q > start && json[q - 1] == '\\'))
             == start + PayloadEnd(json[start..], SCAN_START)
      decreases |json| - q
    {
      assert json[q..][1..] == json[q + 1..];
      if json[q] == '\"' && (q == start || json[q - 1] != '\\') {
        inString := !inString;
      } else if !inString {
        if json[q] == '{' || json[q] == '[' {
          depth := depth + 1;
        } else if json[q] == '}' || json[q] == ']' {
          depth := depth - 1;
        }
      }
      q := q + 1;
      if !(depth > 0 && q < |json|) {
        return;
      }
    }
  }
}
