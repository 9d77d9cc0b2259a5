/** In how many places a key stands: once for each printed transaction. */
module KeyCounts {
  import opened Machine
  import opened LibC
  import opened Decimal
  import opened Records
  import opened Json
  import opened JsonLaws
  import opened Scanners
  import opened Protocol
  import opened RoundTrip
  import opened KeyLaws

  predicate KeyAt(key: string, s: string, i: nat) {
    MatchAt(s, i, Pattern(key)) || MatchAt(s, i, SpacedPattern(key))
  }

  function Places(key: string, s: string): nat {
    if s == "" then 0 else (if KeyAt(key, s, 0) then 1 else 0) + Places(key, s[1..])
  }

  lemma MatchStays(s: string, t: string, i: nat, pattern: string)
    requires MatchAt(s, i, pattern)
    ensures MatchAt(s + t, i, pattern)
  {
    assert (s + t)[i..i + |pattern|] == s[i..i + |pattern|];
  }

  lemma {:induction false} PlacesAddUp(key: string, s: string, t: string)
    ensures Places(key, s + t) >= Places(key, s) + Places(key, t)
  {
    if s == "" {
      assert s + t == t;
    } else {
      assert (s + t)[1..] == s[1..] + t;
      PlacesAddUp(key, s[1..], t);
      if MatchAt(s, 0, Pattern(key)) { MatchStays(s, t, 0, Pattern(key)); }
      if MatchAt(s, 0, SpacedPattern(key)) { MatchStays(s, t, 0, SpacedPattern(key)); }
    }
  }

  lemma PlacesOfParts(key: string, s: string, n: nat)
    requires n <= |s|
    ensures Places(key, s) >= Places(key, s[..n]) + Places(key, s[n..])
  {
    hide Places;
    PlacesAddUp(key, s[..n], s[n..]);
    assert s[..n] + s[n..] == s;
  }

  lemma {:induction false} KeyIsCounted(key: string, s: string, i: nat)
    requires KeyAt(key, s, i)
    ensures Places(key, s) >= 1
  {
    assert s != "";
    if i > 0 {
      MatchShifts(s, i, Pattern(key));
      MatchShifts(s, i, SpacedPattern(key));
      KeyIsCounted(key, s[1..], i - 1);
    }
  }

  /** A key that is found stands somewhere. */
  lemma FoundCounts(key: string, s: string)
    requires ValueOf(s, key).Some?
    ensures Places(key, s) >= 1
  {
    FoundSpelled(s, key);
    KeyIsCounted(key, s, FindKey(s, key).value);
  }

  lemma {:induction false} NoKeysBefore(key: string, s: string, t: string)
    requires forall i: nat | i < |s| :: !KeyAt(key, s + t, i)
    ensures Places(key, s + t) == Places(key, t)
  {
    if s == "" {
      assert s + t == t;
    } else {
      assert (s + t)[1..] == s[1..] + t;
      forall i: nat | i < |s[1..]| ensures !KeyAt(key, s[1..] + t, i) {
        assert !KeyAt(key, s + t, i + 1);
        MatchShifts(s + t, i + 1, Pattern(key));
        MatchShifts(s + t, i + 1, SpacedPattern(key));
      }
      NoKeysBefore(key, s[1..], t);
    }
  }

  lemma NowhereIsNone(key: string, s: string)
    requires forall i: nat :: !KeyAt(key, s, i)
    ensures Places(key, s) == 0
  {
    assert s + "" == s;
    NoKeysBefore(key, s, "");
  }

  predicate EndsField(rest: string) { rest != "" && (rest[0] == ',' || rest[0] == '}') }

  lemma OtherFieldHasNone(key: string, field: Field, rest: string)
    requires IsKey(key) && IsKey(field.0) && field.0 != key && SafeValue(field.1) && EndsField(rest)
    ensures Places(key, FieldText(field) + rest) == Places(key, rest[1..])
  {
    var s, t := FieldText(field) + [rest[0]], rest[1..];
    assert FieldText(field) + rest == s + t;
    BothSeek(key);
    forall i: nat | i < |s| ensures !KeyAt(key, s + t, i) {
      NoMatchInField(field, rest, key, Pattern(key), i);
      NoMatchInField(field, rest, key, SpacedPattern(key), i);
    }
    NoKeysBefore(key, s, t);
  }

  lemma NoMatchBehindOwnKey(key: string, v: string, rest: string, pattern: string, i: nat)
    requires IsKey(key) && SafeValue(v) && Seeks(pattern, key)
    requires EndsField(rest) && 0 < i <= |FieldText((key, v))|
    ensures !MatchAt(FieldText((key, v)) + rest, i, pattern)
  {
    var head := "\"" + key + "\":";
    if i < |head| {
      NoMatchInOwnKey(key, v, rest, pattern, i);
    } else {
      NoMatchInValue(v, rest, key, pattern, i - |head|);
      assert FieldText((key, v)) + rest == head + (v + rest);
      SuffixMatch(head, v + rest, pattern, i - |head|);
    }
  }

  lemma OwnFieldHasOne(key: string, v: string, rest: string)
    requires IsKey(key) && SafeValue(v) && EndsField(rest)
    ensures Places(key, FieldText((key, v)) + rest) <= 1 + Places(key, rest[1..])
  {
    var text := FieldText((key, v)) + rest;
    var a, t := text[1..|FieldText((key, v))| + 1], rest[1..];
    assert text[1..] == a + t;
    BothSeek(key);
    forall i: nat | i < |a| ensures !KeyAt(key, a + t, i) {
      NoMatchBehindOwnKey(key, v, rest, Pattern(key), i + 1);
      NoMatchBehindOwnKey(key, v, rest, SpacedPattern(key), i + 1);
      MatchShifts(text, i + 1, Pattern(key));
      MatchShifts(text, i + 1, SpacedPattern(key));
    }
    NoKeysBefore(key, a, t);
  }

  /** How many fields have the key. */
  function Named(key: string, fields: seq<Field>): nat {
    if fields == [] then 0 else (if fields[0].0 == key then 1 else 0) + Named(key, fields[1..])
  }

  lemma {:induction false} FieldsHaveTheirs(key: string, fields: seq<Field>, rest: string)
    requires IsKey(key) && fields != [] && forall i | 0 <= i < |fields| :: Readable(fields[i])
    ensures Places(key, Fields(fields) + ("}" + rest)) <= Named(key, fields) + Places(key, rest)
  {
    hide Places, SafeValue, IsKey;
    FirstField(fields, "}" + rest);
    var behind := Behind(fields, 0, "}" + rest);
    if fields[0].0 == key {
      OwnFieldHasOne(key, fields[0].1, behind);
    } else {
      OtherFieldHasNone(key, fields[0], behind);
    }
    if |fields| > 1 { FieldsHaveTheirs(key, fields[1..], rest); }
  }

  lemma OtherStartIsNoKey(key: string, c: char, inner: string)
    requires c != '\"'
    ensures Places(key, [c] + inner) == Places(key, inner)
  {
    BothSeek(key);
    Mismatch([c] + inner, 0, Pattern(key), 0);
    Mismatch([c] + inner, 0, SpacedPattern(key), 0);
    NoKeysBefore(key, [c], inner);
  }

  /** The keys that are counted. */
  predicate CountedKey(key: string) { key == "sender" || key == "tx_hash" }

  lemma NamedOnce(key: string, s: string, r: string, tx: Tx)
    requires CountedKey(key)
    ensures Named(key, TxFields(s, r, tx)) == 1 && IsKey(key)
  {
    var f := TxFields(s, r, tx);
    var a, b := "sender", "amount";
    assert a[0] != b[0];
    assert |"sender"| == |"amount"| == 6 && |"receiver"| == 8 && |"fee"| == 3 && |"signature"| == 9 && |"tx_hash"| == 7;
    assert f[1..][1..] == f[2..] && f[2..][1..] == f[3..] && f[3..][1..] == f[4..] && f[4..][1..] == f[5..];
    assert f[5..][1..] == [];
    assert Named(key, f[5..]) == if key == "tx_hash" then 1 else 0;
    assert Named(key, f[4..]) == Named(key, f[5..]);
    assert Named(key, f[3..]) == Named(key, f[4..]);
    assert Named(key, f[2..]) == Named(key, f[3..]);
    assert Named(key, f[1..]) == Named(key, f[2..]);
  }

  /** A printed transaction holds one of each, whatever its addresses say. */
  lemma TxHasOneKey(key: string, tx: Tx, rest: string)
    requires CountedKey(key) && Printable(tx)
    ensures Places(key, PrintTx(tx) + rest) <= 1 + Places(key, rest)
  {
    hide Readable, Escape, Quote, Numeral, SafeValue, IsKey, Places, CountedKey;
    var f := TxFields(Escape(tx.sender), Escape(tx.receiver), tx);
    forall i | 0 <= i < 6 ensures Readable(f[i]) { TxFieldReadable(tx, i); }
    var inner := Fields(f) + ("}" + rest);
    OtherStartIsNoKey(key, '{', inner);
    assert PrintTx(tx) + rest == ['{'] + inner;
    NamedOnce(key, Escape(tx.sender), Escape(tx.receiver), tx);
    FieldsHaveTheirs(key, f, rest);
  }

  /** A printed list holds one for each transaction. */
  lemma {:induction false} ListHasOneEach(key: string, txs: TxList, rest: string)
    requires CountedKey(key) && forall i | 0 <= i < |txs| :: Printable(txs[i])
    ensures Places(key, Join(TxTexts(txs)) + rest) <= |txs| + Places(key, rest)
    decreases |txs|
  {
    hide PrintTx, Printable, Places, Join;
    var items := TxTexts(txs);
    if txs == [] {
      JoinOfNone(items, rest);
    } else {
      JoinIsFirst(items, rest);
      TxHasOneKey(key, txs[0], Follow(items[1..], rest));
      assert items[1..] == TxTexts(txs[1..]);
      if |txs| > 1 {
        OtherStartIsNoKey(key, ',', Join(items[1..]) + rest);
        assert [','] + (Join(items[1..]) + rest) == Follow(items[1..], rest);
        ListHasOneEach(key, txs[1..], rest);
      }
    }
  }

  lemma JoinOfNone(items: seq<string>, rest: string)
    requires items == []
    ensures Join(items) + rest == rest
  {
  }

  lemma LeadIsNoKey(key: string, lead: string, s: string)
    requires lead == "" || lead == ","
    ensures Places(key, lead + s) == Places(key, s)
  {
    hide Places;
    if lead == "" { assert lead + s == s; } else { OtherStartIsNoKey(key, ',', s); }
  }

  // Objects need keys

  /** An object that is read to its end has a sender. */
  lemma CompleteHasKey(json: CString)
    requires ParseTx(json).1
    ensures Places("sender", json) >= 1
  {
    hide GetU64, Unquote, ValueOf, Places;
    FoundCounts("sender", json);
  }

  /** And one with a hash has the key of a hash. */
  lemma HashHasKey(json: CString)
    requires ParseTx(json).0.txHash != ""
    ensures Places("tx_hash", json) >= 1
  {
    hide GetU64, Unquote, ValueOf, Places, Text128At;
    FoundCounts("tx_hash", json);
  }

  lemma IncompleteHasNoHash(json: CString)
    ensures ParseTx(json).0.txHash != "" ==> ParseTx(json).1
  {
    hide Text64At, Text128At, GetU64;
  }

  lemma ObjectKeys(key: string, s: CString)
    requires NextObject(s).Some?
    ensures Places(key, s) >= Places(key, NextObject(s).value.0) + Places(key, NextObject(s).value.1)
  {
    hide Places, BraceEnd;
    var k := Strchr(s, '{').value;
    PlacesOfParts(key, s, k);
    PlacesOfParts(key, s[k..], BraceEnd(s[k..], 0));
  }

  /** All of them have a hash. */
  predicate AllRead(txs: seq<Tx>, n: nat) { |txs| == n && forall k | 0 <= k < n :: txs[k].txHash != "" }

  /** To read `n` transactions with hashes there must be as many of both keys. */
  lemma {:induction false} ObjectsNeedKeys(key: string, s: CString, n: nat)
    requires CountedKey(key) && AllRead(ParseTxs(s, n), n)
    ensures Places(key, s) >= n
    decreases n
  {
    hide NextObject, ParseTx, Places;
    if n > 0 {
      var next, all := NextObject(s), ParseTxs(s, n);
      var more := ParseTxs(next.value.1, n - 1);
      assert all[0] == ParseTx(next.value.0).0;
      assert forall k | 0 <= k < |more| :: more[k] == all[k + 1];
      IncompleteHasNoHash(next.value.0);
      CompleteHasKey(next.value.0);
      HashHasKey(next.value.0);
      ObjectsNeedKeys(key, next.value.1, n - 1);
      ObjectKeys(key, s);
    }
  }
}
