/**
 Assembling a block from the mempool: `do_mine` and the mempool callbacks of
 `src/main.c`.
 */
module Mining {
  import opened Machine
  import opened Records
  import opened Transactions
  import opened Blocks
  import opened Chains
  import opened Ledger

  /** Room for ordinary transactions beside the coinbase. */
  const ROOM: nat := MAX_TX_PER_BLOCK - 1

  /** The test of the selection loop, with the casts it makes. */
  predicate Affordable(chain: seq<Block>, tx: Tx) {
    MachineBalance(AllTxs(chain), tx.sender) >= AsSigned(AddU64(tx.amount, tx.fee))
  }

  function AffordableOnes(chain: seq<Block>, pool: seq<Tx>): (r: seq<Tx>)
    ensures |r| <= |pool|
  {
    if pool == [] then []
    else
      var rest, tx := AffordableOnes(chain, pool[..|pool| - 1]), pool[|pool| - 1];
      if Affordable(chain, tx) then rest + [tx] else rest
  }

  /** First come, first served: the first nine affordable ones. */
  function Select(chain: seq<Block>, pool: seq<Tx>): (picked: seq<Tx>)
    ensures |picked| <= ROOM
  {
    var all := AffordableOnes(chain, pool);
    if |all| <= ROOM then all else all[..ROOM]
  }

  /** `total_fees` as the loop adds it up, wrapping each time. */
  function TotalFees(picked: seq<Tx>): U64 {
    if picked == [] then 0 else AddU64(TotalFees(picked[..|picked| - 1]), picked[|picked| - 1].fee)
  }

  lemma {:induction false} TotalFeesExact(picked: seq<Tx>)
    ensures TotalFees(picked) == Fees(picked) % TWO_64
    ensures Fees(picked) < TWO_64 ==> TotalFees(picked) == Fees(picked)
  {
    if picked != [] {
      var rest, fee := picked[..|picked| - 1], picked[|picked| - 1].fee;
      TotalFeesExact(rest);
      var k := Fees(rest) / TWO_64 + if TotalFees(rest) + fee < TWO_64 then 0 else 1;
      ModCongruence(Fees(picked), TotalFees(picked), k, TWO_64);
    }
  }

  /** The reward and the fees, with the hash taken again. */
  function Coinbase(sha: Hasher, miner: CString, totalFees: U64): Tx {
    WithHash(sha, TxCreateCoinbase(sha, miner).(amount := AddU64(MINING_REWARD, totalFees)))
  }

  /** The block as `do_mine` hands it to `block_mine`. */
  function Template(sha: Hasher, last: Block, time: I64, picked: seq<Tx>, miner: CString): Block
    requires |picked| <= ROOM
  {
    Block(ToU32(last.index + 1), time, [Coinbase(sha, miner, TotalFees(picked))] + picked, last.hash, 0, "")
  }

  /** What a new payment carries: what the user asked for. */
  predicate Carries(sha: Hasher, tx: Tx, sender: Text64, receiver: CString, amount: U64, fee: U64, signature: Text128) {
    && tx.sender == sender && tx.receiver == (if |receiver| <= 64 then receiver else receiver[..64])
    && tx.amount == amount && tx.fee == fee && tx.signature == signature
    && tx.txHash == sha(TxPreImage(tx))
  }

  /** The reward of 50 and the fees, from nobody, with a hash of its own. */
  predicate PaysMiner(sha: Hasher, tx: Tx, miner: Text64, picked: seq<Tx>) {
    && tx.sender == "COINBASE" && tx.receiver == miner && tx.fee == 0 && tx.signature == "COINBASE"
    && tx.amount == (50 + Fees(picked)) % TWO_64
    && tx.txHash == sha(TxPreImage(tx))
  }

  lemma CoinbasePaysMiner(sha: Hasher, miner: Text64, picked: seq<Tx>)
    ensures PaysMiner(sha, Coinbase(sha, miner, TotalFees(picked)), miner, picked)
  {
    hide TotalFees;
    TotalFeesExact(picked);
    var q := Fees(picked) / TWO_64 + if MINING_REWARD + TotalFees(picked) < TWO_64 then 0 else 1;
    QuotientUnique(50 + Fees(picked), q, AddU64(MINING_REWARD, TotalFees(picked)), TWO_64);
  }

  /** The next index, the time it was begun and the hash of the last block. */
  predicate Extends(block: Block, last: Block, time: I64) {
    block.index == ToU32(last.index + 1) && block.timestamp == time && block.prevHash == last.hash
  }

  lemma ZerosInFront(hash: string)
    requires MeetsTarget(hash)
    ensures |hash| >= 2 && hash[..2] == "00"
  {
    assert hash[..2] == [hash[0], hash[1]];
  }

  lemma {:induction false} AffordablePrefix(chain: seq<Block>, pool: seq<Tx>, i: nat)
    requires i <= |pool|
    ensures AffordableOnes(chain, pool[..i]) <= AffordableOnes(chain, pool)
  {
    if i < |pool| {
      AffordablePrefix(chain, pool[..|pool| - 1], i);
      assert pool[..|pool| - 1][..i] == pool[..i];
    } else {
      assert pool[..i] == pool;
    }
  }

  /** Once nine are found, the rest of the mempool does not matter. */
  lemma SelectStops(chain: seq<Block>, pool: seq<Tx>, i: nat)
    requires i <= |pool| && |AffordableOnes(chain, pool[..i])| <= ROOM
    requires i == |pool| || |AffordableOnes(chain, pool[..i])| == ROOM
    ensures Select(chain, pool) == AffordableOnes(chain, pool[..i])
  {
    assert pool[..|pool|] == pool;
    AffordablePrefix(chain, pool, i);
  }

  lemma PoolStep(chain: seq<Block>, pool: seq<Tx>, i: nat)
    requires i < |pool|
    ensures AffordableOnes(chain, pool[..i + 1])
         == (if Affordable(chain, pool[i]) then AffordableOnes(chain, pool[..i]) + [pool[i]]
             else AffordableOnes(chain, pool[..i]))
  {
    assert pool[..i + 1][..i] == pool[..i];
  }

  lemma {:induction false} AffordableIsJudged(chain: seq<Block>, pool: seq<Tx>, tx: Tx)
    requires tx in AffordableOnes(chain, pool)
    ensures Affordable(chain, tx) && tx in pool
  {
    if !Affordable(chain, pool[|pool| - 1]) || tx != pool[|pool| - 1] {
      AffordableIsJudged(chain, pool[..|pool| - 1], tx);
    }
  }

  /** The place in the mempool of the `i`-th affordable transaction. */
  lemma {:induction false} PlaceOf(chain: seq<Block>, pool: seq<Tx>, i: nat) returns (j: nat)
    requires i < |AffordableOnes(chain, pool)|
    ensures j < |pool| && Affordable(chain, pool[j])
    ensures pool[j] == AffordableOnes(chain, pool)[i] && |AffordableOnes(chain, pool[..j])| == i
  {
    hide Affordable;
    var n := |pool| - 1;
    if i < |AffordableOnes(chain, pool[..n])| {
      j := PlaceOf(chain, pool[..n], i);
      assert pool[..n][..j] == pool[..j];
    } else {
      j := n;
    }
  }

  /** Is `tx`, standing at place `j`, taken by the loop? */
  predicate TakenAt(chain: seq<Block>, pool: seq<Tx>, tx: Tx, j: nat) {
    j < |pool| && pool[j] == tx && Affordable(chain, tx) && |AffordableOnes(chain, pool[..j])| < 9
  }

  /** The places that the selection loop takes, in the order of arrival. */
  lemma {:induction false} PlacesOf(chain: seq<Block>, pool: seq<Tx>) returns (places: seq<nat>)
    ensures |places| == |AffordableOnes(chain, pool)|
    ensures forall i | 0 <= i < |places| :: places[i] < |pool| && pool[places[i]] == AffordableOnes(chain, pool)[i]
    ensures forall i, k | 0 <= i < k < |places| :: places[i] < places[k]
  {
    hide Affordable;
    places := [];
    if pool != [] {
      var n := |pool| - 1;
      places := PlacesOf(chain, pool[..n]);
      if Affordable(chain, pool[n]) { places := places + [n]; }
    }
  }

  /** First come, first served. */
  lemma PickedInOrder(chain: seq<Block>, pool: seq<Tx>) returns (places: seq<nat>)
    ensures |places| == |Select(chain, pool)| <= 9
    ensures forall i | 0 <= i < |places| :: places[i] < |pool| && pool[places[i]] == Select(chain, pool)[i]
    ensures forall i, k | 0 <= i < k < |places| :: places[i] < places[k]
  {
    hide AffordableOnes;
    places := PlacesOf(chain, pool);
    if |places| > ROOM { places := places[..ROOM]; }
  }

  /**
   Mining empties the mempool, and this is who is lost by it: a transaction
   gets into the block if and only if its sender can afford it and, at one of
   the places where it stands, fewer than nine before it could be afforded.
   */
  lemma PickedExactly(chain: seq<Block>, pool: seq<Tx>, tx: Tx)
    ensures tx in Select(chain, pool) <==> exists j: nat :: TakenAt(chain, pool, tx, j)
  {
    hide Affordable, AffordableOnes;
    var all, picked := AffordableOnes(chain, pool), Select(chain, pool);
    assert forall i | 0 <= i < |picked| :: picked[i] == all[i];
    if tx in picked {
      var i: nat :| i < |picked| && picked[i] == tx;
      var j := PlaceOf(chain, pool, i);
      assert TakenAt(chain, pool, tx, j);
    }
    forall j: nat | TakenAt(chain, pool, tx, j) ensures tx in picked {
      var n := |AffordableOnes(chain, pool[..j])|;
      PoolStep(chain, pool, j);
      AffordablePrefix(chain, pool, j + 1);
      assert all[n] == tx && picked[n] == tx;
    }
  }

  /** A mined template is accepted by the chain it was made for, unless that is full. */
  lemma TemplateFits(sha: Hasher, chain: seq<Block>, time: I64, picked: seq<Tx>, miner: CString, mined: Block)
    requires |chain| > 0 && |picked| <= ROOM
    requires MinedFrom(sha, Template(sha, chain[|chain| - 1], time, picked, miner), mined)
    ensures Accepts(sha, chain, mined) <==> |chain| < 10000
  {
    MinedIsValid(sha, Template(sha, chain[|chain| - 1], time, picked, miner), mined);
  }

  class App {
    const sha: Hasher
    const chain: Blockchain
    const address: Text64
    const mempool: array<Tx>
    var mempoolCount: nat

    ghost predicate Valid()
      reads this, chain
    {
      && chain.Valid() && chain.length > 0 && chain.sha == sha
      && mempoolCount <= mempool.Length == MEMPOOL_SIZE
    }

    function Pool(): seq<Tx>
      requires mempoolCount <= mempool.Length
      reads this, mempool
    {
      mempool[..mempoolCount]
    }

    constructor (chain: Blockchain, address: Text64)
      requires chain.Valid() && chain.length > 0
      ensures Valid() && Pool() == []
      ensures this.chain == chain && this.address == address && fresh(mempool)
    {
      this.sha := chain.sha;
      this.chain := chain;
      this.address := address;
      mempool := new Tx[MEMPOOL_SIZE](_ => ZERO_TX);
      mempoolCount := 0;
    }

    /** `on_new_tx`: a full mempool drops the transaction. */
    method OnNewTx(tx: Tx)
      requires Valid()
      modifies this`mempoolCount, mempool
      ensures Valid()
      ensures Pool() == if |old(Pool())| < 100 then old(Pool()) + [tx] else old(Pool())
    {
      if mempoolCount < MEMPOOL_SIZE {
        mempool[mempoolCount] := tx;
        mempoolCount := mempoolCount + 1;
      }
    }

    /** The checks of `do_send`, then `tx_create` and the mempool. The signature is foreign code. */
    method Send(receiver: CString, amount: U64, fee: U64, signature: Text128) returns (sent: Option<Tx>)
      requires Valid()
      modifies this`mempoolCount, mempool
      ensures Valid()
      ensures sent.Some? <==> fee >= 1
                              && ToI64(ChainBalance(chain.Contents(), address)) >= AsSigned(AddU64(amount, fee))
      ensures sent.Some? ==> Carries(sha, sent.value, address, receiver, amount, fee, signature)
      ensures Pool() == if sent.Some? && |old(Pool())| < 100 then old(Pool()) + [sent.value] else old(Pool())
    {
      if fee < MIN_TX_FEE {
        return None;
      }
      var balance := GetBalance(chain, address);
      if balance < AsSigned(AddU64(amount, fee)) {
        return None;
      }
      var tx := TxCreate(sha, address, receiver, amount, fee).(signature := signature);
      OnNewTx(tx);
      return Some(tx);
    }

    /** The balance test inside the selection loop. */
    method CanAfford(tx: Tx) returns (affordable: bool)
      requires Valid()
      ensures affordable == Affordable(chain.Contents(), tx)
      ensures affordable <==> ToI64(ChainBalance(chain.Contents(), tx.sender)) >= AsSigned(AddU64(tx.amount, tx.fee))
    {
      var balance := GetBalance(chain, tx.sender);
      var totalCost := AddU64(tx.amount, tx.fee);
      affordable := balance >= AsSigned(totalCost);
    }

    /** The selection loop. */
    method SelectTxs() returns (picked: seq<Tx>, totalFees: U64)
      requires Valid()
      ensures picked == Select(chain.Contents(), Pool())
      ensures totalFees == TotalFees(picked)
    {
      picked, totalFees := [], 0;
      ghost var c, pool := chain.Contents(), Pool();
      var i := 0;
      while i < mempoolCount && |picked| < ROOM
        invariant i <= mempoolCount && |picked| <= ROOM
        invariant picked == AffordableOnes(c, pool[..i])
        invariant totalFees == TotalFees(picked)
      {
        var tx := mempool[i];
        assert tx == pool[i];
        PoolStep(c, pool, i);
        var affordable := CanAfford(tx);
        if affordable {
          assert (picked + [tx])[..|picked|] == picked;
          picked := picked + [tx];
          totalFees := AddU64(totalFees, tx.fee);
        }
        i := i + 1;
      }
      SelectStops(c, pool, i);
    }

    /** Selection under the mempool lock: the mempool is emptied, whatever was selected. */
    method Collect() returns (picked: seq<Tx>, totalFees: U64)
      requires Valid() && chain.blocks as object != mempool
      modifies this`mempoolCount
      ensures Valid() && Pool() == []
      ensures picked == Select(chain.Contents(), old(Pool()))
      ensures totalFees == TotalFees(picked)
    {
      picked, totalFees := SelectTxs();
      mempoolCount := 0;
    }

    /** The coinbase goes to place 0, with the fees added and its hash taken again. */
    method Draft(last: Block, time: I64, picked: seq<Tx>, totalFees: U64) returns (draft: Block)
      requires |picked| <= ROOM && totalFees == TotalFees(picked)
      ensures draft == Template(sha, last, time, picked, address)
      ensures Extends(draft, last, time) && |draft.txs| == 1 + |picked| && draft.txs[1..] == picked
      ensures PaysMiner(sha, draft.txs[0], address, picked)
    {
      CoinbasePaysMiner(sha, address, picked);
      var coinbase := TxCreateCoinbase(sha, address);
      coinbase := coinbase.(amount := AddU64(coinbase.amount, totalFees));
      coinbase := ComputeTxHash(sha, coinbase);
      draft := Block(ToU32(last.index + 1), time, [coinbase] + picked, last.hash, 0, "");
    }

    /**
     `do_mine` with nobody else running: the block that is added is the
     template mined, and only a full chain refuses it.
     */
    method DoMine(time: I64, ghost witnessNonce: U64) returns (added: bool, mined: Block)
      requires Valid() && chain.blocks as object != mempool
      requires NonceWorks(sha, Template(sha, chain.Contents()[chain.length - 1], time,
                                        Select(chain.Contents(), Pool()), address), witnessNonce)
      modifies this`mempoolCount, chain`length, chain.blocks
      ensures Valid() && Pool() == []
      ensures MinedFrom(sha, Template(sha, old(chain.Contents()[chain.length - 1]), time,
                                      Select(old(chain.Contents()), old(Pool())), address), mined)
      ensures Extends(mined, old(chain.Contents()[chain.length - 1]), time) && mined.txs != []
      ensures mined.txs[1..] == Select(old(chain.Contents()), old(Pool()))
      ensures PaysMiner(sha, mined.txs[0], address, mined.txs[1..])
      ensures mined.hash == sha(PreImage(mined)) && mined.hash[..2] == "00"
      ensures added <==> old(chain.length) < 10000
      ensures chain.Contents() == if added then old(chain.Contents()) + [mined] else old(chain.Contents())
    {
      ghost var c := chain.Contents();
      var last := chain.LastBlock();
      var picked, totalFees := Collect();
      var draft := Draft(last.value, time, picked, totalFees);
      var attempts;
      mined, attempts := Mine(sha, draft, witnessNonce);
      TemplateFits(sha, c, time, picked, address, mined);
      MinedIsValid(sha, draft, mined);
      ZerosInFront(mined.hash);
      var ret := chain.Add(mined);
      added := ret == 0;
    }
  }
}
