/** Hashing, mining and checking one block: `src/block.c`. */
module Blocks {
  import opened Machine
  import opened Decimal
  import opened LibC
  import opened Records

  /** The transaction hashes, one behind the other. */
  function Hashes(txs: seq<Tx>): string {
    if txs == [] then "" else Hashes(txs[..|txs| - 1]) + txs[|txs| - 1].txHash
  }

  function Header(block: Block): string {
    Numeral(block.index) + SignedNumeral(block.timestamp) + block.prevHash + Numeral(block.nonce)
  }

  /** What is hashed: every field but the hash, with nothing in between. */
  function PreImage(block: Block): string { Header(block) + Hashes(block.txs) }

  predicate MeetsTarget(hash: string) {
    |hash| >= MINING_DIFFICULTY && forall i | 0 <= i < MINING_DIFFICULTY :: hash[i] == '0'
  }

  predicate BlockValid(sha: Hasher, block: Block) {
    sha(PreImage(block)) == block.hash && MeetsTarget(block.hash)
  }

  lemma HeaderIsText(block: Block)
    ensures '\0' !in Header(block) && |Header(block)| <= 125
  {
    WidthU64(block.index);
    WidthI64(block.timestamp);
    WidthU64(block.nonce);
    SignOfNumeral(block.timestamp);
  }

  lemma NextHash(header: string, txs: seq<Tx>, i: nat)
    requires i < |txs|
    ensures header + Hashes(txs[..i + 1]) == header + Hashes(txs[..i]) + txs[i].txHash
  {
    assert txs[..i + 1][..i] == txs[..i];
    Assoc(header, Hashes(txs[..i]), txs[i].txHash);
  }

  /** The 4096-byte buffer and the loop guard never drop a transaction hash. */
  method ComputeHash(sha: Hasher, block: Block) returns (hash: Digest)
    ensures hash == sha(PreImage(block))
  {
    var buf := new char[4096];
    HeaderIsText(block);
    var header: CString := Header(block);
    var offset := Snprintf(buf, 0, header);
    assert buf[..|header|] == buf[0..|header|];
    assert header + Hashes(block.txs[..0]) == header;
    var i := 0;
    while i < |block.txs| && offset < buf.Length - 65
      invariant i <= |block.txs|
      invariant '\0' !in header + Hashes(block.txs[..i])
      invariant Holds(buf, header + Hashes(block.txs[..i]))
      invariant offset == |header + Hashes(block.txs[..i])| <= 125 + 64 * i
    {
      ghost var held: CString := header + Hashes(block.txs[..i]);
      NextHash(header, block.txs, i);
      var n := Append(buf, offset, block.txs[i].txHash, held);
      offset := offset + n;
      i := i + 1;
    }
    assert block.txs[..i] == block.txs;
    TextInBuffer(buf, PreImage(block));
    hash := sha(TextOf(buf[..]));
  }

  method ValidateBlock(sha: Hasher, block: Block) returns (ret: int)
    ensures ret == if BlockValid(sha, block) then 0 else -1
    ensures ret == 0 <==> block.hash == sha(PreImage(block)) && block.hash[..2] == "00"
  {
    var computed := ComputeHash(sha, block);
    if computed != block.hash {
      return -1;
    }
    if block.hash[..MINING_DIFFICULTY] != "00" {
      assert !MeetsTarget(block.hash) by {
        assert block.hash[..2] == [block.hash[0], block.hash[1]];
      }
      return -1;
    }
    assert block.hash[0] == block.hash[..MINING_DIFFICULTY][0];
    assert block.hash[1] == block.hash[..MINING_DIFFICULTY][1];
    return 0;
  }

  predicate NonceWorks(sha: Hasher, block: Block, nonce: U64) {
    MeetsTarget(sha(PreImage(block.(nonce := nonce))))
  }

  /** `mined` is `template` with the least nonce that meets the target, and its hash. */
  ghost predicate MinedFrom(sha: Hasher, template: Block, mined: Block) {
    && NonceWorks(sha, template, mined.nonce)
    && (forall m: U64 | m < mined.nonce :: !NonceWorks(sha, template, m))
    && mined == template.(nonce := mined.nonce, hash := mined.hash)
    && mined.hash == sha(PreImage(template.(nonce := mined.nonce)))
  }

  /**
   The mining loop. It ends because some nonce works, which is the caller's
   bet; `witnessNonce` is that nonce and exists only in the proof.
   */
  method Mine(sha: Hasher, template: Block, ghost witnessNonce: U64) returns (mined: Block, attempts: U64)
    requires NonceWorks(sha, template, witnessNonce)
    ensures MinedFrom(sha, template, mined)
    ensures attempts == AddU64(mined.nonce, 1)
  {
    mined := template.(nonce := 0);
    attempts := 0;
    while true
      invariant mined == template.(nonce := mined.nonce)
      invariant attempts == mined.nonce <= witnessNonce
      invariant forall m: U64 | m < mined.nonce :: !NonceWorks(sha, template, m)
      decreases witnessNonce - mined.nonce
    {
      var hash := ComputeHash(sha, mined);
      attempts := AddU64(attempts, 1);
      if hash[..MINING_DIFFICULTY] == "00" {
        assert hash[0] == hash[..MINING_DIFFICULTY][0] && hash[1] == hash[..MINING_DIFFICULTY][1];
        DigestIsText(hash);
        mined := mined.(hash := hash);
        return;
      }
      assert !MeetsTarget(hash) by {
        assert hash[..2] == [hash[0], hash[1]];
      }
      assert mined.nonce < witnessNonce;
      mined := mined.(nonce := AddU64(mined.nonce, 1));
    }
  }

  /** The stored hash is no part of the pre-image, so a mined block is valid. */
  lemma MinedIsValid(sha: Hasher, template: Block, mined: Block)
    requires MinedFrom(sha, template, mined)
    ensures BlockValid(sha, mined)
  {
    assert PreImage(mined) == PreImage(template.(nonce := mined.nonce));
  }

  /** Mining is deterministic: nodes that mine the same template agree. */
  lemma MinedIsUnique(sha: Hasher, template: Block, a: Block, b: Block)
    requires MinedFrom(sha, template, a) && MinedFrom(sha, template, b)
    ensures a == b
  {
    assert !(a.nonce < b.nonce) && !(b.nonce < a.nonce);
  }

  function GenesisTemplate(): Block {
    Block(0, 1231006505, [], seq(64, _ => '0'), 0, "")
  }

  ghost predicate IsGenesis(sha: Hasher, block: Block) {
    MinedFrom(sha, GenesisTemplate(), block)
  }

  method CreateGenesis(sha: Hasher, ghost witnessNonce: U64) returns (genesis: Block)
    requires NonceWorks(sha, GenesisTemplate(), witnessNonce)
    ensures IsGenesis(sha, genesis)
  {
    var attempts;
    genesis, attempts := Mine(sha, GenesisTemplate(), witnessNonce);
  }
}
