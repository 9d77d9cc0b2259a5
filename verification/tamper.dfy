/**
 What `chain_validate` notices when an old block is changed. The documentation
 says that any changed transaction invalidates the chain; the code hashes the
 stored transaction hashes only, and never looks at block 0.
 */
module Tampering {
  import opened Machine
  import opened Records
  import opened Blocks
  import opened Chains
  import opened Forks

  /** One exchanged block can break at most the links on its two sides. */
  lemma ExchangedBlock(sha: Hasher, chain: seq<Block>, i: nat, block: Block)
    requires ChainValid(sha, chain) && i < |chain|
    ensures ChainValid(sha, chain[i := block])
            <==> (i > 0 ==> LinkValid(sha, chain[i - 1], block))
                 && (i + 1 < |chain| ==> block.hash == chain[i].hash)
  {
    hide BlockValid;
    var c := chain[i := block];
    if i > 0 { assert c[i - 1] == chain[i - 1] && c[i] == block; }
    if i + 1 < |chain| { assert c[i + 1] == chain[i + 1] && LinkValid(sha, chain[i], chain[i + 1]); }
    if ChainValid(sha, c) {
      assert i > 0 ==> LinkValid(sha, c[i - 1], c[i]);
      assert i + 1 < |c| ==> LinkValid(sha, c[i], c[i + 1]);
    }
    if (i > 0 ==> LinkValid(sha, chain[i - 1], block)) && (i + 1 < |chain| ==> block.hash == chain[i].hash) {
      forall k | 1 <= k < |c| ensures LinkValid(sha, c[k - 1], c[k]) {
        assert LinkValid(sha, chain[k - 1], chain[k]);
      }
    }
  }

  predicate SameHashList(s: seq<Tx>, t: seq<Tx>) {
    |s| == |t| && forall k | 0 <= k < |s| :: s[k].txHash == t[k].txHash
  }

  lemma {:induction false} SameListSameText(s: seq<Tx>, t: seq<Tx>)
    requires SameHashList(s, t)
    ensures Hashes(s) == Hashes(t)
  {
    if s != [] { SameListSameText(s[..|s| - 1], t[..|t| - 1]); }
  }

  lemma HashListDecides(s: seq<Tx>, t: seq<Tx>)
    requires forall k | 0 <= k < |s| :: |s[k].txHash| == 64
    requires forall k | 0 <= k < |t| :: |t[k].txHash| == 64
    ensures Hashes(s) == Hashes(t) <==> SameHashList(s, t)
  {
    HashesLength(s);
    HashesLength(t);
    if Hashes(s) == Hashes(t) { HashesInjective(s, t); }
    if SameHashList(s, t) { SameListSameText(s, t); }
  }

  /**
   Tamper evidence, exactly: unless the two blocks collide, a chain with other
   transactions in block `i` is still valid if and only if `i` is 0 or the list
   of stored transaction hashes is the same.
   */
  lemma TamperEvidence(sha: Hasher, chain: seq<Block>, i: nat, txs: TxList)
    requires ChainValid(sha, chain) && i < |chain|
    requires FullHashes(chain[i]) && FullHashes(chain[i].(txs := txs))
    requires NoCollisionBetween(sha, chain[i], chain[i].(txs := txs))
    ensures ChainValid(sha, chain[i := chain[i].(txs := txs)]) <==> i == 0 || SameHashList(txs, chain[i].txs)
  {
    var was := chain[i];
    var now := was.(txs := txs);
    ExchangedBlock(sha, chain, i, now);
    HashListDecides(txs, was.txs);
    if i > 0 {
      assert LinkValid(sha, chain[i - 1], was);
      assert PreImage(was) == PreImage(now) <==> Hashes(was.txs) == Hashes(txs) by {
        SplitsAlike(Header(was), Hashes(was.txs), Hashes(txs));
      }
    }
  }

  lemma SplitsAlike(header: string, s: string, t: string)
    ensures header + s == header + t <==> s == t
  {
    if header + s == header + t {
      assert s == (header + s)[|header|..] == (header + t)[|header|..] == t;
    }
  }

  /** So an amount can be changed anywhere in a valid chain, and it stays valid. */
  lemma AmountsAreNotCovered(sha: Hasher, chain: seq<Block>, i: nat, j: nat, amount: U64)
    requires ChainValid(sha, chain) && i < |chain| && j < |chain[i].txs|
    ensures var txs := chain[i].txs;
            ChainValid(sha, chain[i := chain[i].(txs := txs[j := txs[j].(amount := amount)])])
  {
    var was, txs := chain[i], chain[i].txs[j := chain[i].txs[j].(amount := amount)];
    var now := was.(txs := txs);
    ExchangedBlock(sha, chain, i, now);
    SameListSameText(txs, was.txs);
    assert PreImage(now) == PreImage(was);
    if i > 0 { assert LinkValid(sha, chain[i - 1], was); }
  }
}
