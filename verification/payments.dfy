/** What a payment does to balances once it is in a block. */
module Payments {
  import opened Machine
  import opened Records
  import opened Ledger
  import opened Mining
  import opened Transactions

  /** A new payment carries what was asked for. */
  lemma CreatedCarries(sha: Hasher, sender: Text64, receiver: CString, amount: U64, fee: U64, signature: Text128)
    ensures Carries(sha, TxCreate(sha, sender, receiver, amount, fee).(signature := signature),
                    sender, receiver, amount, fee, signature)
  {
  }

  lemma BalanceAround(before: seq<Tx>, tx: Tx, after: seq<Tx>, addr: string)
    ensures Balance(before + [tx] + after, addr)
         == Balance(before + after, addr) + Received(tx, addr) - Spent(tx, addr)
  {
    BalanceConcat(before + [tx], after, addr);
    BalanceConcat(before, [tx], addr);
    BalanceConcat(before, after, addr);
    assert [tx][..0] == [];
  }

  /**
   One payment among any others: between two accounts it takes amount and fee
   from the sender and gives the amount to the receiver; to oneself it costs the
   fee; and it concerns nobody else.
   */
  lemma PaymentMoves(before: seq<Tx>, tx: Tx, after: seq<Tx>)
    ensures var with, without := before + [tx] + after, before + after;
            && (tx.sender != tx.receiver ==>
                  && Balance(with, tx.receiver) == Balance(without, tx.receiver) + tx.amount
                  && Balance(with, tx.sender) == Balance(without, tx.sender) - (tx.amount + tx.fee))
            && (tx.sender == tx.receiver ==> Balance(with, tx.sender) == Balance(without, tx.sender) - tx.fee)
            && (forall addr | addr != tx.sender && addr != tx.receiver ::
                  Balance(with, addr) == Balance(without, addr))
  {
    hide Balance;
    BalanceAround(before, tx, after, tx.sender);
    BalanceAround(before, tx, after, tx.receiver);
    forall addr | addr != tx.sender && addr != tx.receiver
      ensures Balance(before + [tx] + after, addr) == Balance(before + after, addr)
    {
      BalanceAround(before, tx, after, addr);
    }
  }

  /** A payment that is confirmed at place `k` of a new block: what its two
      accounts hold behind the block, compared with the block without it. */
  lemma ConfirmedPaymentMoves(chain: seq<Block>, block: Block, k: nat)
    requires k < |block.txs| && block.txs[k].sender != block.txs[k].receiver
    ensures var tx, others := block.txs[k], block.(txs := block.txs[..k] + block.txs[k + 1..]);
            && ChainBalance(chain + [block], tx.receiver) == ChainBalance(chain + [others], tx.receiver) + tx.amount
            && ChainBalance(chain + [block], tx.sender)
            == ChainBalance(chain + [others], tx.sender) - (tx.amount + tx.fee)
  {
    hide Balance, AllTxs, ChainBalance;
    var tx := block.txs[k];
    var others := block.(txs := block.txs[..k] + block.txs[k + 1..]);
    assert block.txs == block.txs[..k] + [tx] + block.txs[k + 1..];
    PaymentMoves(block.txs[..k], tx, block.txs[k + 1..]);
    ChainBalanceGrows(chain, block, tx.receiver);
    ChainBalanceGrows(chain, block, tx.sender);
    ChainBalanceGrows(chain, others, tx.receiver);
    ChainBalanceGrows(chain, others, tx.sender);
  }
}
