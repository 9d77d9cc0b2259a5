/** Transactions: `src/tx.c`. */
module Transactions {
  import opened Machine
  import opened Decimal
  import opened LibC
  import opened Records

  function TxPreImage(tx: Tx): string {
    tx.sender + tx.receiver + Numeral(tx.amount) + Numeral(tx.fee)
  }

  function WithHash(sha: Hasher, tx: Tx): Tx {
    DigestIsText(sha(TxPreImage(tx)));
    tx.(txHash := sha(TxPreImage(tx)))
  }

  /** `strncpy(dst, s, ADDR_LEN - 1)` into a zeroed field. */
  function CutText(s: CString): (t: Text64)
    ensures t <= s && (|s| <= 64 ==> t == s)
  {
    if |s| <= 64 then s else s[..64]
  }

  function TxCreate(sha: Hasher, sender: CString, receiver: CString, amount: U64, fee: U64): Tx {
    WithHash(sha, Tx(CutText(sender), CutText(receiver), amount, fee, "", ""))
  }

  function TxCreateCoinbase(sha: Hasher, miner: CString): Tx {
    WithHash(sha, Tx(COINBASE_ADDR, CutText(miner), MINING_REWARD, 0, "COINBASE", ""))
  }

  /** The 512-byte buffer never cuts a pre-image. */
  method ComputeTxHash(sha: Hasher, tx: Tx) returns (hashed: Tx)
    ensures hashed == WithHash(sha, tx)
  {
    var buf := new char[512];
    WidthU64(tx.amount);
    WidthU64(tx.fee);
    var text: CString := TxPreImage(tx);
    var n := Snprintf(buf, 0, text);
    assert buf[..|text|] == buf[0..|text|];
    TextInBuffer(buf, text);
    DigestIsText(sha(text));
    hashed := tx.(txHash := sha(TextOf(buf[..])));
  }

  /** Equal in everything that is hashed. */
  predicate SamePayment(t: Tx, u: Tx) {
    t.sender == u.sender && t.receiver == u.receiver && t.amount == u.amount && t.fee == u.fee
  }

  /**
   What a transaction hash pins down: two transactions with one pre-image are
   the same payment if and only if their parts are of the same widths.
   */
  lemma TxPreImageExact(t: Tx, u: Tx)
    requires TxPreImage(t) == TxPreImage(u)
    ensures SamePayment(t, u)
            <==> |t.sender| == |u.sender| && |t.receiver| == |u.receiver| && |Numeral(t.amount)| == |Numeral(u.amount)|
  {
    if |t.sender| == |u.sender| && |t.receiver| == |u.receiver| && |Numeral(t.amount)| == |Numeral(u.amount)| {
      SplitEqual(t.sender + t.receiver + Numeral(t.amount), Numeral(t.fee),
                 u.sender + u.receiver + Numeral(u.amount), Numeral(u.fee));
      SplitEqual(t.sender + t.receiver, Numeral(t.amount), u.sender + u.receiver, Numeral(u.amount));
      SplitEqual(t.sender, t.receiver, u.sender, u.receiver);
      NumeralInjective(t.amount, u.amount);
      NumeralInjective(t.fee, u.fee);
    }
  }

  /** Between addresses of the wallets' 64 characters, only amount and fee can
      run together. */
  lemma FullAddressesExact(t: Tx, u: Tx)
    requires TxPreImage(t) == TxPreImage(u)
    requires |t.sender| == |t.receiver| == |u.sender| == |u.receiver| == 64
    ensures t.sender == u.sender && t.receiver == u.receiver
    ensures Numeral(t.amount) + Numeral(t.fee) == Numeral(u.amount) + Numeral(u.fee)
    ensures SamePayment(t, u) <==> |Numeral(t.amount)| == |Numeral(u.amount)|
  {
    TxPreImageExact(t, u);
    var a, b := Numeral(t.amount) + Numeral(t.fee), Numeral(u.amount) + Numeral(u.fee);
    Assoc(t.sender + t.receiver, Numeral(t.amount), Numeral(t.fee));
    Assoc(u.sender + u.receiver, Numeral(u.amount), Numeral(u.fee));
    SplitEqual(t.sender + t.receiver, a, u.sender + u.receiver, b);
    SplitEqual(t.sender, t.receiver, u.sender, u.receiver);
  }

  /** An amount and a fee run together in the pre-image, and so do two
      addresses: the text alone does not tell them apart. */
  lemma TxPreImageIsAmbiguous()
    ensures exists t: Tx, u: Tx :: t.amount != u.amount && TxPreImage(t) == TxPreImage(u)
  {
    var t := Tx("a", "b", 1, 23, "", "");
    var u := Tx("a", "b", 12, 3, "", "");
    assert Numeral(1) + Numeral(23) == "123" == Numeral(12) + Numeral(3);
    assert TxPreImage(t) == "ab" + (Numeral(1) + Numeral(23));
    assert TxPreImage(u) == "ab" + (Numeral(12) + Numeral(3));
  }
}
