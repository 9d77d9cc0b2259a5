/**
 The records of the program, `tx_t` and `block_t`, with their constants.

 A C `char` array field is the text it holds, and `transactions[]` with
 `tx_count` is the sequence of the transactions in use.
 */
module Records {
  import opened Machine

  const MAX_TX_PER_BLOCK: nat := 10
  const MINING_DIFFICULTY: nat := 2
  const MINING_REWARD: nat := 50
  const MIN_TX_FEE: nat := 1
  const COINBASE_ADDR: Text64 := "COINBASE"
  const MAX_BLOCKS: nat := 10000
  const MEMPOOL_SIZE: nat := 100
  const MAX_PEERS: nat := 16
  const MAX_MSG_SIZE: nat := 1048576

  datatype Tx = Tx(sender: Text64, receiver: Text64, amount: U64, fee: U64,
                   signature: Text128, txHash: Text64)

  type TxList = txs: seq<Tx> | |txs| <= 10

  datatype Block = Block(index: U32, timestamp: I64, txs: TxList,
                         prevHash: Text64, nonce: U64, hash: Text64)

  const ZERO_TX: Tx := Tx("", "", 0, 0, "", "")

  predicate IsHex(c: char) { '0' <= c <= '9' || 'a' <= c <= 'f' }

  /** What "%02x" makes of a SHA-256 digest (section 6.2 of FIPS 180-4). */
  type Digest = s: string | |s| == 64 && forall i | 0 <= i < |s| :: IsHex(s[i])
    witness seq(64, _ => '0')

  /** SHA-256 is foreign code: every theorem is for all functions of this type. */
  type Hasher = string -> Digest

  lemma DigestIsText(h: Digest)
    ensures |h| <= 64 && '\0' !in h
  {
  }
}
