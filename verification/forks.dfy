/**
 What a block hash pins down. The pre-image of `block_compute_hash` has no
 delimiters, so this is length arithmetic; SHA-256 enters only through the
 explicit hypothesis that the blocks at hand do not collide.
 */
module Forks {
  import opened Decimal
  import opened LibC
  import opened Records
  import opened Blocks
  import opened Chains

  /** The hash fields are as long as SHA-256 makes them. */
  predicate FullHashes(block: Block) {
    |block.prevHash| == 64 && forall i | 0 <= i < |block.txs| :: |block.txs[i].txHash| == 64
  }

  /** Equal in everything that is hashed. */
  predicate SameContent(a: Block, b: Block) {
    && a.index == b.index && a.timestamp == b.timestamp && a.prevHash == b.prevHash && a.nonce == b.nonce
    && |a.txs| == |b.txs|
    && forall i | 0 <= i < |a.txs| :: a.txs[i].txHash == b.txs[i].txHash
  }

  lemma {:induction false} HashesLength(txs: seq<Tx>)
    requires forall i | 0 <= i < |txs| :: |txs[i].txHash| == 64
    ensures |Hashes(txs)| == 64 * |txs|
  {
    if txs != [] { HashesLength(txs[..|txs| - 1]); }
  }

  lemma {:induction false} HashesInjective(s: seq<Tx>, t: seq<Tx>)
    requires forall i | 0 <= i < |s| :: |s[i].txHash| == 64
    requires forall i | 0 <= i < |t| :: |t[i].txHash| == 64
    requires |s| == |t| && Hashes(s) == Hashes(t)
    ensures forall i | 0 <= i < |s| :: s[i].txHash == t[i].txHash
  {
    if s != [] {
      var n := |s| - 1;
      HashesLength(s[..n]);
      HashesLength(t[..n]);
      assert s[n].txHash == Hashes(s)[64 * n..] == Hashes(t)[64 * n..] == t[n].txHash;
      assert Hashes(s[..n]) == Hashes(s)[..64 * n] == Hashes(t)[..64 * n] == Hashes(t[..n]);
      HashesInjective(s[..n], t[..n]);
      forall i | 0 <= i < |s| ensures s[i].txHash == t[i].txHash {
        if i < n { assert s[..n][i].txHash == t[..n][i].txHash; }
      }
    }
  }

  /** 1 to 20 digits of nonce and 64 for each hash: the length tells them apart. */
  lemma LengthsSplit(nonceA: nat, countA: nat, nonceB: nat, countB: nat)
    requires 1 <= nonceA <= 20 && 1 <= nonceB <= 20
    requires nonceA + 64 * countA == nonceB + 64 * countB
    ensures nonceA == nonceB && countA == countB
  {
  }

  /** Equal pre-images of blocks at one height, with time stamps of one width,
      mean equal time stamps, parents, nonces and lists of transaction hashes. */
  lemma PreImageInjective(a: Block, b: Block)
    requires FullHashes(a) && FullHashes(b)
    requires a.index == b.index && |SignedNumeral(a.timestamp)| == |SignedNumeral(b.timestamp)|
    requires PreImage(a) == PreImage(b)
    ensures SameContent(a, b)
  {
    var i, ta, tb := Numeral(a.index), SignedNumeral(a.timestamp), SignedNumeral(b.timestamp);
    var na, nb := Numeral(a.nonce), Numeral(b.nonce);
    WidthU64(a.nonce);
    WidthU64(b.nonce);
    HashesLength(a.txs);
    HashesLength(b.txs);
    LengthsSplit(|na|, |a.txs|, |nb|, |b.txs|);
    SplitEqual(Header(a), Hashes(a.txs), Header(b), Hashes(b.txs));
    SplitEqual(i + ta + a.prevHash, na, i + tb + b.prevHash, nb);
    SplitEqual(i + ta, a.prevHash, i + tb, b.prevHash);
    SplitEqual(i, ta, i, tb);
    NumeralInjective(a.nonce, b.nonce);
    SignedNumeralInjective(a.timestamp, b.timestamp);
    HashesInjective(a.txs, b.txs);
  }

  /** Exactly then: equal pre-images mean equal content if and only if index and
      width of the time stamp agree. */
  lemma PreImageExact(a: Block, b: Block)
    requires FullHashes(a) && FullHashes(b) && PreImage(a) == PreImage(b)
    ensures SameContent(a, b)
            <==> a.index == b.index && |SignedNumeral(a.timestamp)| == |SignedNumeral(b.timestamp)|
  {
    if a.index == b.index && |SignedNumeral(a.timestamp)| == |SignedNumeral(b.timestamp)| { PreImageInjective(a, b); }
  }

  /** Even at one height, time stamps of different widths run into the parent's
      hash, and that into the nonce. */
  lemma PreImageIsAmbiguous()
    ensures exists a: Block, b: Block ::
              && FullHashes(a) && FullHashes(b) && a.index == b.index
              && PreImage(a) == PreImage(b) && !SameContent(a, b)
  {
    var zeros: string := seq(62, _ => '0');
    var a := Block(1, 12, [], "3" + zeros + "7", 5, "");
    var b := Block(1, 1, [], "23" + zeros, 75, "");
    assert Numeral(12) == "12" && Numeral(75) == "75";
    assert Header(a) == "1" + "12" + ("3" + zeros + "7") + "5";
    assert Header(b) == "1" + "1" + ("23" + zeros) + "75";
    assert Header(a) == "1123" + zeros + "75" == Header(b);
    assert FullHashes(a) && FullHashes(b) && !SameContent(a, b);
  }

  /** Blocks as honest nodes make them from height 1 on: the index is the
      position and the time stamp has ten digits (the years 2001 to 2286). */
  predicate HonestShape(chain: seq<Block>) {
    forall i | 1 <= i < |chain| ::
      && chain[i].index == i
      && |SignedNumeral(chain[i].timestamp)| == 10
      && FullHashes(chain[i])
  }

  predicate NoCollisionBetween(sha: Hasher, a: Block, b: Block) {
    sha(PreImage(a)) == sha(PreImage(b)) ==> PreImage(a) == PreImage(b)
  }

  /** One hash decides the whole history below it. */
  lemma {:induction false} HashFixesHistory(sha: Hasher, c: seq<Block>, d: seq<Block>, k: nat)
    requires k < |c| && k < |d|
    requires ChainValid(sha, c) && ChainValid(sha, d) && HonestShape(c) && HonestShape(d)
    requires forall i | 1 <= i <= k :: NoCollisionBetween(sha, c[i], d[i])
    requires c[k].hash == d[k].hash
    ensures forall j | 0 <= j <= k :: c[j].hash == d[j].hash
    ensures forall j | 1 <= j <= k :: SameContent(c[j], d[j])
  {
    if k > 0 {
      assert LinkValid(sha, c[k - 1], c[k]) && LinkValid(sha, d[k - 1], d[k]);
      assert NoCollisionBetween(sha, c[k], d[k]);
      PreImageInjective(c[k], d[k]);
      HashFixesHistory(sha, c, d, k - 1);
    }
  }

  /** Two chains that part at height `j` never meet again. */
  lemma ForksNeverMerge(sha: Hasher, c: seq<Block>, d: seq<Block>, j: nat, k: nat)
    requires j <= k < |c| && k < |d|
    requires ChainValid(sha, c) && ChainValid(sha, d) && HonestShape(c) && HonestShape(d)
    requires forall i | 1 <= i <= k :: NoCollisionBetween(sha, c[i], d[i])
    requires c[j].hash != d[j].hash
    ensures c[k].hash != d[k].hash
  {
    if c[k].hash == d[k].hash { HashFixesHistory(sha, c, d, k); }
  }
}
