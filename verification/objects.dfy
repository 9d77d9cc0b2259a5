/**
 Reading texts that the program does not print itself: fields in another order,
 fields that are missing, keys with a blank behind them, strings and numbers
 that are too long.
 */
module Objects {
  import opened Machine
  import opened LibC
  import opened Decimal
  import opened Records
  import opened Json
  import opened JsonLaws
  import opened ScanLaws
  import opened Protocol
  import opened BraceLaws
  import opened Codec
  import opened RoundTrip
  import opened KeyLaws
  import opened Wire

  // Keys

  lemma SearchFails(t: string, pattern: string)
    requires forall j: nat :: !MatchAt(t, j, pattern)
    ensures Strstr(t, pattern) == None
  {
    StrstrIsFirst(t, pattern);
  }

  /** The first place where `pattern` stands. */
  ghost predicate FirstAt(t: string, pattern: string, p: nat) {
    MatchAt(t, p, pattern) && forall j: nat | j < p :: !MatchAt(t, j, pattern)
  }

  /** A key is found where it first stands with the colon right behind it; only if
      it stands nowhere like this, where it first stands with a blank. */
  lemma FoundExactly(t: string, key: string, p: nat)
    ensures FindKey(t, key) == Some(p)
            <==> || FirstAt(t, "\"" + key + "\":", p)
                 || ((forall j: nat :: !MatchAt(t, j, "\"" + key + "\":")) && FirstAt(t, "\"" + key + "\" :", p))
  {
    hide MatchAt;
    StrstrIsFirst(t, Pattern(key));
    StrstrIsFirst(t, SpacedPattern(key));
    if FirstAt(t, Pattern(key), p) { StrstrIs(t, Pattern(key), p); }
    if FirstAt(t, SpacedPattern(key), p) { StrstrIs(t, SpacedPattern(key), p); }
  }

  /** Blanks and tabs in front of a value are passed over, and nothing else. */
  lemma {:induction false} BlanksArePassed(blanks: string, v: string)
    requires forall c | c in blanks :: c == ' ' || c == '\t'
    requires v == "" || (v[0] != ' ' && v[0] != '\t')
    ensures SkipBlanks(blanks + v) == v
  {
    if blanks == "" {
      assert blanks + v == v;
    } else {
      assert blanks[0] in blanks && forall c | c in blanks[1..] :: c in blanks;
      assert (blanks + v)[1..] == blanks[1..] + v;
      BlanksArePassed(blanks[1..], v);
    }
  }

  // Strings and numbers of others

  lemma UnquoteFirst(c: char, t: string, room: nat)
    requires room > 0
    ensures Unquote(EscapeChar(c) + t, room) == [c] + Unquote(t, room - 1)
  {
    var text := EscapeChar(c) + t;
    assert text[|EscapeChar(c)|..] == t;
  }

  lemma {:induction false} PlainIsCopied(s: string, t: string, room: nat)
    requires IsPlain(s) && |s| <= room
    ensures Unquote(s + t, room) == s + Unquote(t, room - |s|)
  {
    if s == "" {
      assert s + t == t;
    } else {
      assert (s + t)[1..] == s[1..] + t;
      PlainIsCopied(s[1..], t, room - 1);
      assert [s[0]] + s[1..] == s;
      Assoc([s[0]], s[1..], Unquote(t, room - |s|));
    }
  }

  lemma PairIsRead(c: char, t: string, room: nat)
    requires room > 0
    ensures Unquote("\\" + ([c] + t), room) == [c] + Unquote(t, room - 1)
    ensures Unquote("", room) == "" && Unquote("\\", room) == "\\"
  {
    var pair := "\\" + ([c] + t);
    assert pair[1] == c && pair[2..] == t;
  }

  /** Behind a backslash any character is taken as it is, and a string that nobody
      closes ends with the text. */
  lemma ForeignString(s: string, c: char, t: string, room: nat)
    requires IsPlain(s) && |s| < room
    ensures Unquote(s, room) == s && Unquote(s + "\\", room) == s + "\\"
    ensures Unquote(s + ("\\" + ([c] + t)), room) == s + ([c] + Unquote(t, room - |s| - 1))
  {
    hide Unquote;
    PlainIsCopied(s, "", room);
    PlainIsCopied(s, "\\", room);
    PlainIsCopied(s, "\\" + ([c] + t), room);
    PairIsRead(c, t, room - |s|);
    assert s + "" == s;
  }

  /** A printed string that is too long for the buffer is cut to what fits. */
  lemma {:induction false} LongStringIsCut(s: string, room: nat, rest: string)
    ensures Unquote(Escape(s) + ("\"" + rest), room) == if |s| <= room then s else s[..room]
    decreases s
  {
    hide EscapeChar, Unquote;
    var end := "\"" + rest;
    if s == "" || room == 0 {
      NothingToCopy(s, room, end);
    } else {
      Assoc(EscapeChar(s[0]), Escape(s[1..]), end);
      UnquoteFirst(s[0], Escape(s[1..]) + end, room);
      LongStringIsCut(s[1..], room - 1, rest);
      CutBehindFirst(s, room);
    }
  }

  lemma NothingToCopy(s: string, room: nat, end: string)
    requires (s == "" || room == 0) && end != "" && end[0] == '\"'
    ensures Unquote(Escape(s) + end, room) == ""
  {
    if s == "" { assert Escape(s) + end == end; }
  }

  lemma CutBehindFirst(s: string, room: nat)
    requires s != "" && room > 0
    ensures [s[0]] + (if |s[1..]| <= room - 1 then s[1..] else s[1..][..room - 1])
         == if |s| <= room then s else s[..room]
  {
  }

  /** Numbers out of range are the largest there are; an `int` keeps the lower 32 bits. */
  lemma LargeNumbers(n: nat, rest: string)
    requires rest == "" || !IsDigit(rest[0])
    ensures Strtoull(Numeral(n) + rest) == if n < 0x1_0000_0000_0000_0000 then n else 0xffff_ffff_ffff_ffff
    ensures Strtol(Numeral(n) + rest) == if n < 0x8000_0000_0000_0000 then n else 0x7fff_ffff_ffff_ffff
    ensures var k := ToI32(Strtol(Numeral(n) + rest));
            n < 0x8000_0000_0000_0000 ==> exists q: int :: n == k + q * 0x1_0000_0000
  {
    ReadNumberOfSigned(n, rest);
    if n < TWO_63 {
      var k: int := ToI32(n);
      var q := n / TWO_32 + if n % TWO_32 < TWO_31 then 0 else 1;
      assert n == k + q * 0x1_0000_0000;
    }
  }

  lemma NegativeNumbers(n: nat, rest: string)
    requires n > 0 && (rest == "" || !IsDigit(rest[0]))
    ensures Strtol("-" + Numeral(n) + rest) == if n <= 0x8000_0000_0000_0000 then 0 - n else -0x8000_0000_0000_0000
  {
    ReadNumberOfSigned(0 - n, rest);
  }

  lemma {:induction false} SpaceIsSkipped(space: string, s: string)
    requires forall c | c in space :: c == ' ' || 9 <= c as int <= 13
    ensures SkipSpace(space + s) == SkipSpace(s)
  {
    if space == "" {
      assert space + s == s;
    } else {
      assert space[0] in space && forall c | c in space[1..] :: c in space;
      assert (space + s)[1..] == space[1..] + s;
      SpaceIsSkipped(space[1..], s);
    }
  }

  lemma PlusIsRead(n: nat, rest: string)
    requires rest == "" || !IsDigit(rest[0])
    ensures ReadNumber("+" + (Numeral(n) + rest)) == (false, n)
  {
    hide Value;
    var s := "+" + (Numeral(n) + rest);
    assert s[1..] == Numeral(n) + rest;
    DigitRunStops(Numeral(n), rest);
    ValueOfNumeral(n);
  }

  /** White space and a plus sign may stand in front, and no digits are 0. */
  lemma SpaceAndPlus(space: string, n: U64, rest: string)
    requires forall c | c in space :: c == ' ' || 9 <= c as int <= 13
    requires rest == "" || !IsDigit(rest[0])
    ensures Strtoull(space + ("+" + (Numeral(n) + rest))) == n
    ensures rest != "" && rest[0] == '}' ==> Strtoull(space + rest) == 0
  {
    hide SkipSpace, Numeral;
    SpaceIsSkipped(space, "+" + (Numeral(n) + rest));
    PlusIsRead(n, rest);
    SpaceIsSkipped(space, rest);
    if rest != "" && rest[0] == '}' { BraceIsZero(rest); }
  }

  lemma BraceIsZero(s: string)
    requires s != "" && s[0] == '}'
    ensures ReadNumber(s) == (false, 0)
  {
  }

  // Fields in any order, and missing fields

  predicate DistinctKeys(fields: seq<Field>) {
    forall i, j | 0 <= i < j < |fields| :: fields[i].0 != fields[j].0
  }

  predicate AllReadable(fields: seq<Field>) { forall i | 0 <= i < |fields| :: Readable(fields[i]) }

  predicate Has(fields: seq<Field>, key: string) { exists i :: 0 <= i < |fields| && fields[i].0 == key }

  /** A key that no field has is not found. */
  lemma MissingIsNotFound(fields: seq<Field>, key: string)
    requires IsKey(key) && AllReadable(fields) && !Has(fields, key)
    ensures ValueOf(Object(fields), key) == None
  {
    hide Vouched, Readable, SafeValue, MatchAt, IsKey;
    var t := Object(fields);
    forall i | 0 <= i < |fields| ensures FieldVouched(Nowhere, key, fields[i]) {
      ReadableParts(fields[i]);
      SafeIsVouched(Nowhere, key, fields[i].1);
    }
    ObjectIsVouched(Nowhere, key, fields);
    forall pattern: string, j: nat | Spells(pattern, key) ensures !MatchAt(t, j, pattern) {
      VouchedToTheEnd(Nowhere, key, pattern, t, j);
    }
    assert Spells(Pattern(key), key) && Spells(SpacedPattern(key), key);
    SearchFails(t, Pattern(key));
    SearchFails(t, SpacedPattern(key));
  }

  lemma ReadableParts(field: Field)
    requires Readable(field)
    ensures IsKey(field.0) && SafeValue(field.1)
  {
  }

  lemma AnyIsFindable(fields: seq<Field>, k: nat)
    requires k < |fields| && AllReadable(fields) && DistinctKeys(fields)
    ensures Findable(fields, k)
  {
    hide Readable;
    ReadableIsFindable(fields, k);
  }

  /** What a field of a printed object holds. */
  predicate Offers(fields: seq<Field>, key: string, v: string) {
    exists i :: 0 <= i < |fields| && fields[i] == (key, v)
  }

  lemma OfferedString(fields: seq<Field>, key: string, s: string, room: nat)
    requires IsKey(key) && AllReadable(fields) && DistinctKeys(fields) && |s| <= room
    requires Has(fields, key) ==> Offers(fields, key, Quote(Escape(s)))
    ensures GetString(Object(fields), key, room + 1) == if Has(fields, key) then Some(s) else None
  {
    hide Readable, IsKey, Quote, Escape, ValueOf, Unquote;
    if Has(fields, key) {
      var i: nat :| i < |fields| && fields[i] == (key, Quote(Escape(s)));
      AnyIsFindable(fields, i);
      ReadsString(fields, i, "", s, room);
      assert Object(fields) + "" == Object(fields);
    } else {
      MissingIsNotFound(fields, key);
    }
  }

  lemma OfferedNumber(fields: seq<Field>, key: string, n: U64)
    requires IsKey(key) && AllReadable(fields) && DistinctKeys(fields)
    requires Has(fields, key) ==> Offers(fields, key, Numeral(n))
    ensures GetU64(Object(fields), key) == if Has(fields, key) then Some(n) else None
  {
    hide Readable, IsKey, Numeral, ValueOf, Strtoull;
    if Has(fields, key) {
      var i: nat :| i < |fields| && fields[i] == (key, Numeral(n));
      AnyIsFindable(fields, i);
      ReadsU64(fields, i, "", n);
      assert Object(fields) + "" == Object(fields);
    } else {
      MissingIsNotFound(fields, key);
    }
  }

  /** A number is not read as a string. */
  lemma NumberIsNoString(fields: seq<Field>, key: string, n: nat, size: nat)
    requires IsKey(key) && AllReadable(fields) && DistinctKeys(fields) && size > 0
    requires Offers(fields, key, Numeral(n))
    ensures GetString(Object(fields), key, size) == None
  {
    hide Readable, IsKey, ValueOf, Unquote;
    var i: nat :| i < |fields| && fields[i] == (key, Numeral(n));
    AnyIsFindable(fields, i);
    FindsTheField(fields, i, "");
    assert Object(fields) + "" == Object(fields);
    assert IsDigit(Numeral(n)[0]);
  }

  /** Some of the fields of a printed transaction, each once, in any order. */
  predicate FieldsOf(fields: seq<Field>, tx: Tx) {
    DistinctKeys(fields) && forall f | f in fields :: f in TxFields(Escape(tx.sender), Escape(tx.receiver), tx)
  }

  lemma SomeAreReadable(fields: seq<Field>, tx: Tx)
    requires Printable(tx) && FieldsOf(fields, tx)
    ensures AllReadable(fields)
  {
    hide Readable, Printable, Escape, Quote, Numeral;
    var all := TxFields(Escape(tx.sender), Escape(tx.receiver), tx);
    forall i | 0 <= i < |fields| ensures Readable(fields[i]) {
      assert fields[i] in fields;
      var k: nat :| k < 6 && all[k] == fields[i];
      TxFieldReadable(tx, k);
    }
  }

  lemma OwnFieldOffered(fields: seq<Field>, tx: Tx, k: nat)
    requires FieldsOf(fields, tx) && k < 6
    ensures var f := TxFields(Escape(tx.sender), Escape(tx.receiver), tx)[k];
            IsKey(f.0) && (Has(fields, f.0) ==> Offers(fields, f.0, f.1))
  {
    hide Escape, Quote, Numeral, IsKey;
    var all := TxFields(Escape(tx.sender), Escape(tx.receiver), tx);
    TxKeys(Escape(tx.sender), Escape(tx.receiver), tx);
    assert all[k] in all;
    if Has(fields, all[k].0) {
      var i :| 0 <= i < |fields| && fields[i].0 == all[k].0;
      assert fields[i] in fields;
      var j: nat :| j < 6 && all[j] == fields[i];
      if j < k { TxKeysDiffer(Escape(tx.sender), Escape(tx.receiver), tx, k); }
      if k < j { TxKeysDiffer(Escape(tx.sender), Escape(tx.receiver), tx, j); }
      assert fields[i] == (all[k].0, all[k].1);
    }
  }

  /**
   A transaction is read from its fields in whatever order they stand. Sender,
   receiver and amount must be there, in this order of asking; fee, signature and
   hash may be missing, and are then zero and empty.
   */
  lemma TxInAnyOrder(fields: seq<Field>, tx: Tx)
    requires Printable(tx) && FieldsOf(fields, tx) && '\0' !in Object(fields)
    ensures ParseTx(Object(fields)) ==
            if !Has(fields, "sender") then (ZERO_TX, false)
            else if !Has(fields, "receiver") then (ZERO_TX.(sender := tx.sender), false)
            else if !Has(fields, "amount") then (ZERO_TX.(sender := tx.sender, receiver := tx.receiver), false)
            else (Tx(tx.sender, tx.receiver, tx.amount,
                     if Has(fields, "fee") then tx.fee else 0,
                     if Has(fields, "signature") then tx.signature else "",
                     if Has(fields, "tx_hash") then tx.txHash else ""), true)
  {
    hide GetString, GetU64, Has, AllReadable, Offers, Escape, Quote, Numeral, FieldsOf, Printable, IsKey, Object;
    SomeAreReadable(fields, tx);
    assert DistinctKeys(fields) by { DistinctOf(fields, tx); }
    OwnFieldOffered(fields, tx, 0);
    OfferedString(fields, "sender", tx.sender, 64);
    OwnFieldOffered(fields, tx, 1);
    OfferedString(fields, "receiver", tx.receiver, 64);
    OwnFieldOffered(fields, tx, 2);
    OfferedNumber(fields, "amount", tx.amount);
    OwnFieldOffered(fields, tx, 3);
    OfferedNumber(fields, "fee", tx.fee);
    OwnFieldOffered(fields, tx, 4);
    OwnFieldOffered(fields, tx, 5);
    PrintableEscapes(tx);
    OfferedString(fields, "signature", tx.signature, 128);
    OfferedString(fields, "tx_hash", tx.txHash, 64);
  }

  lemma DistinctOf(fields: seq<Field>, tx: Tx)
    requires FieldsOf(fields, tx)
    ensures DistinctKeys(fields)
  {
  }

  lemma PrintableEscapes(tx: Tx)
    requires Printable(tx)
    ensures Escape(tx.signature) == tx.signature && Escape(tx.txHash) == tx.txHash
  {
    EscapePlain(tx.signature);
    EscapePlain(tx.txHash);
  }

  // Blocks without their list

  predicate HeaderFieldsOf(fields: seq<Field>, block: Block) {
    DistinctKeys(fields) && forall f | f in fields :: f in BlockFields(block, "")[..6]
  }

  lemma HeaderFieldReadable(block: Block, k: nat)
    requires IsPlain(block.prevHash) && IsPlain(block.hash) && k < 6
    ensures Readable(BlockFields(block, "")[..6][k])
  {
    hide Readable;
    BlockFieldReadable(block, "", k);
  }

  lemma HeaderIsReadable(fields: seq<Field>, block: Block)
    requires IsPlain(block.prevHash) && IsPlain(block.hash) && HeaderFieldsOf(fields, block)
    ensures AllReadable(fields) && DistinctKeys(fields)
  {
    hide Readable, Quote, Numeral, SignedNumeral;
    var all := BlockFields(block, "")[..6];
    forall i | 0 <= i < |fields| ensures Readable(fields[i]) {
      assert fields[i] in fields;
      var k: nat :| k < 6 && all[k] == fields[i];
      HeaderFieldReadable(block, k);
    }
  }

  lemma HeaderFieldOffered(fields: seq<Field>, block: Block, k: nat)
    requires HeaderFieldsOf(fields, block) && k < 6
    ensures var f := BlockFields(block, "")[k]; IsKey(f.0) && (Has(fields, f.0) ==> Offers(fields, f.0, f.1))
  {
    hide Quote, Numeral, SignedNumeral, IsKey;
    var all := BlockFields(block, "");
    BlockKeys(block, "");
    assert all[k] in all;
    if Has(fields, all[k].0) {
      var i :| 0 <= i < |fields| && fields[i].0 == all[k].0;
      assert fields[i] in fields;
      var j: nat :| j < 6 && all[..6][j] == fields[i];
      if j < k { BlockKeysDiffer(block, "", k); }
      if k < j { BlockKeysDiffer(block, "", j); }
      assert fields[i] == (all[k].0, all[k].1);
    }
  }

  lemma OfferedSigned(fields: seq<Field>, key: string, n: I64)
    requires IsKey(key) && AllReadable(fields) && DistinctKeys(fields)
    requires Has(fields, key) ==> Offers(fields, key, SignedNumeral(n))
    ensures var r := GetU64(Object(fields), key);
            if Has(fields, key) then r.Some? && ToI64(r.value) == n else r == None
  {
    hide Readable, IsKey, SignedNumeral, ValueOf, Strtoull, ToI64;
    if Has(fields, key) {
      var i: nat :| i < |fields| && fields[i] == (key, SignedNumeral(n));
      AnyIsFindable(fields, i);
      ReadsSigned(fields, i, "", n);
      assert Object(fields) + "" == Object(fields);
    } else {
      MissingIsNotFound(fields, key);
    }
  }

  lemma OfferedInt(fields: seq<Field>, key: string, n: I32)
    requires IsKey(key) && AllReadable(fields) && DistinctKeys(fields) && n >= 0
    requires Has(fields, key) ==> Offers(fields, key, Numeral(n))
    ensures GetInt(Object(fields), key) == if Has(fields, key) then Some(n) else None
  {
    hide Readable, IsKey, Numeral, ValueOf, Strtol;
    if Has(fields, key) {
      var i: nat :| i < |fields| && fields[i] == (key, Numeral(n));
      AnyIsFindable(fields, i);
      ReadsInt(fields, i, "", n);
      assert Object(fields) + "" == Object(fields);
    } else {
      MissingIsNotFound(fields, key);
    }
  }

  predicate HasHeader(fields: seq<Field>) {
    && Has(fields, "index") && Has(fields, "timestamp") && Has(fields, "prev_hash")
    && Has(fields, "nonce") && Has(fields, "hash") && Has(fields, "tx_count")
  }

  lemma NoListIsThere(fields: seq<Field>, block: Block)
    requires HeaderFieldsOf(fields, block)
    ensures !Has(fields, "transactions") && IsKey("transactions")
  {
    hide Quote, Numeral, SignedNumeral;
    var all := BlockFields(block, "");
    BlockKeysDiffer(block, "", 6);
    forall i | 0 <= i < |fields| ensures fields[i].0 != "transactions" {
      assert fields[i] in fields;
      var j: nat :| j < 6 && all[..6][j] == fields[i];
      assert all[j].0 != all[6].0;
    }
  }

  /** What the readers find of the header fields. */
  predicate HeaderFound(json: CString, fields: seq<Field>, block: Block) {
    && GetU64(json, "index") == (if Has(fields, "index") then Some(block.index) else None)
    && (var t := GetU64(json, "timestamp");
        if Has(fields, "timestamp") then t.Some? && ToI64(t.value) == block.timestamp else t == None)
    && GetString(json, "prev_hash", 65) == (if Has(fields, "prev_hash") then Some(block.prevHash) else None)
    && GetU64(json, "nonce") == (if Has(fields, "nonce") then Some(block.nonce) else None)
    && GetString(json, "hash", 65) == (if Has(fields, "hash") then Some(block.hash) else None)
    && GetInt(json, "tx_count") == (if Has(fields, "tx_count") then Some(|block.txs|) else None)
    && ValueOf(json, "transactions") == None
  }

  lemma HeaderIsFound(fields: seq<Field>, block: Block)
    requires IsPlain(block.prevHash) && IsPlain(block.hash) && HeaderFieldsOf(fields, block)
    requires '\0' !in Object(fields)
    ensures HeaderFound(Object(fields), fields, block)
  {
    hide GetString, GetU64, GetInt, ToI64, ValueOf, Has, AllReadable, Offers, Quote, Numeral, SignedNumeral,
         HeaderFieldsOf, IsKey, Object, DistinctKeys;
    HeaderIsReadable(fields, block);
    HeaderFieldOffered(fields, block, 0);
    OfferedNumber(fields, "index", block.index);
    HeaderFieldOffered(fields, block, 1);
    OfferedSigned(fields, "timestamp", block.timestamp);
    HeaderFieldOffered(fields, block, 2);
    EscapePlain(block.prevHash);
    OfferedString(fields, "prev_hash", block.prevHash, 64);
    HeaderFieldOffered(fields, block, 3);
    OfferedNumber(fields, "nonce", block.nonce);
    HeaderFieldOffered(fields, block, 4);
    EscapePlain(block.hash);
    OfferedString(fields, "hash", block.hash, 64);
    HeaderFieldOffered(fields, block, 5);
    OfferedInt(fields, "tx_count", |block.txs|);
    NoListIsThere(fields, block);
    MissingIsNotFound(fields, "transactions");
  }

  /** The six header fields of a block may stand in any order, but none may be
      missing; without a list all its transactions are zero. */
  lemma HeaderInAnyOrder(fields: seq<Field>, block: Block)
    requires IsPlain(block.prevHash) && IsPlain(block.hash) && HeaderFieldsOf(fields, block)
    requires '\0' !in Object(fields)
    ensures ParseBlock(Object(fields)) ==
            if HasHeader(fields) then Ok(block.(txs := seq(|block.txs|, _ => ZERO_TX))) else Rejected
  {
    hide GetString, GetU64, GetInt, ToI64, ValueOf, Has, HeaderFieldsOf, Object, IsPlain;
    HeaderIsFound(fields, block);
    assert Padded([], |block.txs|) == seq(|block.txs|, _ => ZERO_TX);
  }

  /** Something else in the place of the list is passed over. */
  lemma ListMustBeOne(block: Block, v: CString)
    requires IsPlain(block.prevHash) && IsPlain(block.hash)
    requires v != "" && v[0] != ' ' && v[0] != '\t' && v[0] != '['
    ensures '\0' !in Object(BlockFields(block, v))
    ensures ParseBlock(Object(BlockFields(block, v))) == Ok(block.(txs := seq(|block.txs|, _ => ZERO_TX)))
  {
    hide GetString, GetU64, GetInt, ToI64, ValueOf, Object, Findable;
    var f := BlockFields(block, v);
    assert Object(f) + "" == Object(f);
    BlockNumbersRead(block, v, "");
    BlockHashesRead(block, v, "");
    OtherIsFindable(block, v);
    FindsTheField(f, 6, "");
    assert Padded([], |block.txs|) == seq(|block.txs|, _ => ZERO_TX);
  }

  lemma OtherIsFindable(block: Block, v: string)
    requires IsPlain(block.prevHash) && IsPlain(block.hash) && v != "" && v[0] != ' ' && v[0] != '\t'
    ensures Findable(BlockFields(block, v), 6)
  {
    hide Readable;
    var f := BlockFields(block, v);
    forall i | 0 <= i < 6 ensures Readable(f[i]) { BlockFieldReadable(block, v, i); }
    BlockKeysDiffer(block, v, 6);
    BlockKeys(block, v);
    assert f[6] in f;
    forall i | 0 <= i < 6 ensures IsKey(f[i].0) && SafeValue(f[i].1) { ReadableParts(f[i]); }
  }

  /** As many places as the number says, but no more than there are. */
  lemma AsManyPlaces(json: CString, count: I32)
    ensures |ParseTransactions(json, count)| == if count < 0 then 0 else if count > 10 then 10 else count
    ensures count > 10 ==> ParseTransactions(json, count) == ParseTransactions(json, 10)
  {
    hide ValueOf, ParseTxs;
    ValueIsText(json, "transactions");
  }

  // Lists

  /** Every object of a list gives a transaction, as far as it can be read. */
  lemma OneMoreTx(body: string, rest: CString, n: nat)
    requires Balanced(body) && '\0' !in body && rest != ""
    ensures var item := "{" + body + "}";
            '\0' !in item + rest && ParseTxs(item + rest, n + 1) == [ParseTx(item).0] + ParseTxs(rest, n)
  {
    hide NextObject, ParseTx, Balanced;
    CutsObject("", body, rest);
    assert "" + ("{" + body + "}" + rest) == "{" + body + "}" + rest;
  }

  /** One that is no block spoils the chain. */
  lemma OneMoreBlock(body: string, rest: CString, n: nat)
    requires Balanced(body) && '\0' !in body && rest != ""
    ensures var item := "{" + body + "}";
            '\0' !in item + rest && ParseBlocks(item + rest, n + 1) ==
              match ParseBlock(item)
              case Rejected => Rejected
              case OutsideModel => OutsideModel
              case Ok(block) =>
                match ParseBlocks(rest, n)
                case Ok(more) => Ok([block] + more)
                case other => other
  {
    hide NextObject, ParseBlock, Balanced;
    CutsObject("", body, rest);
    assert "" + ("{" + body + "}" + rest) == "{" + body + "}" + rest;
  }

  // Chains and messages

  /** A list is read only for a length between 1 and 10000. */
  lemma LengthDecides(n: I32)
    ensures var json := Object([("length", SignedNumeral(n)), ("blocks", "[]")]);
            '\0' !in json && ParseChain(json) == if 1 <= n <= 10000 then Ok([]) else Rejected
  {
    hide ParseBlocks, ValueOf, SignedNumeral;
    var fields: seq<Field> := [("length", SignedNumeral(n)), ("blocks", "[]")];
    assert IsKey("length") && IsKey("blocks");
    SignedIsSafe(n);
    var a, b := "length", "blocks";
    assert a[0] != b[0];
    assert AllReadable(fields) && DistinctKeys(fields);
    AnyIsFindable(fields, 0);
    AnyIsFindable(fields, 1);
    SignedNumeralFits(n);
    FindsTheField(fields, 0, "");
    FindsTheField(fields, 1, "");
    assert Object(fields) + "" == Object(fields);
    LengthIsText(n);
    SignedIsRead(n, Behind(fields, 0, "}" + ""));
    NoBlocksThere(if n > 0 then n else 0);
    assert ("[]" + Behind(fields, 1, "}" + ""))[1..] == "]}";
  }

  /** And something else in the place of the blocks is no chain. */
  lemma BlocksMustBeList(n: I32, v: CString)
    requires v != "" && v[0] != ' ' && v[0] != '\t' && v[0] != '['
    ensures var json := Object([("length", SignedNumeral(n)), ("blocks", v)]);
            '\0' !in json ==> ParseChain(json) == Rejected
  {
    hide ParseBlocks, ValueOf, SignedNumeral, GetInt;
    var fields: seq<Field> := [("length", SignedNumeral(n)), ("blocks", v)];
    assert IsKey("length") && IsKey("blocks");
    SignedIsSafe(n);
    var a, b := "length", "blocks";
    assert a[0] != b[0];
    assert Findable(fields, 1);
    FindsTheField(fields, 1, "");
    assert Object(fields) + "" == Object(fields);
  }

  lemma LengthIsText(n: I32)
    ensures '\0' !in Object([("length", SignedNumeral(n)), ("blocks", "[]")])
  {
    hide SignedNumeral, Object;
    SignedNumeralFits(n);
    assert "{\"" + "length" + "\":" == "{\"length\":" && ",\"" + "blocks" + "\":" == ",\"blocks\":";
    TwoFieldText("length", SignedNumeral(n), "blocks", "[]", "{\"length\":", ",\"blocks\":");
    FrameIsText("{\"length\":", SignedNumeral(n), ",\"blocks\":");
  }

  lemma FrameIsText(head: CString, v: CString, middle: CString)
    ensures '\0' !in head + v + (middle + "[]") + "}"
  {
  }

  lemma SignedIsRead(n: I32, rest: string)
    requires rest == "" || !IsDigit(rest[0])
    ensures ToI32(Strtol(SignedNumeral(n) + rest)) == n
  {
    hide ReadNumber, SignedNumeral;
    ReadNumberOfSigned(n, rest);
  }

  lemma NoBlocksThere(n: nat)
    ensures ParseBlocks("]}", n) == Ok([])
  {
    assert '{' !in "]}";
  }

  /** A line with a type and nothing else: what needs a payload says nothing. */
  lemma BareType(kind: nat)
    requires kind < 10
    ensures '\0' !in Object([("type", Numeral(kind))])
    ensures Decode(Object([("type", Numeral(kind))])) == match kind
                                                         case 2 => Ok(RequestChain)
                                                         case 5 => Ok(Ping)
                                                         case 6 => Ok(Pong)
                                                         case _ => Rejected
  {
    hide ValueOf, Numeral, ParseTx, ParseBlock, ParseChain, Strtol;
    var fields: seq<Field> := [("type", Numeral(kind))];
    assert IsKey("type") && IsKey("payload") && |"type"| == 4 && |"payload"| == 7;
    NumeralIsSafe(kind);
    NumeralFits(kind);
    assert AllReadable(fields) && DistinctKeys(fields);
    assert fields[0] == ("type", Numeral(kind)) && Has(fields, "type") && Offers(fields, "type", Numeral(kind));
    OfferedInt(fields, "type", kind);
    MissingIsNotFound(fields, "payload");
  }
}
