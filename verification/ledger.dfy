/** Balances as a fold over the whole chain: `chain_get_balance`. */
module Ledger {
  import opened Machine
  import opened Records
  import opened Chains

  function Received(tx: Tx, addr: string): nat { if tx.receiver == addr then tx.amount else 0 }

  function Spent(tx: Tx, addr: string): nat { if tx.sender == addr then tx.amount + tx.fee else 0 }

  /** The exact balance, over the integers. */
  function Balance(txs: seq<Tx>, addr: string): int {
    if txs == [] then 0
    else
      var tx := txs[|txs| - 1];
      Balance(txs[..|txs| - 1], addr) + Received(tx, addr) - Spent(tx, addr)
  }

  function AllTxs(chain: seq<Block>): seq<Tx> {
    if chain == [] then [] else AllTxs(chain[..|chain| - 1]) + chain[|chain| - 1].txs
  }

  function ChainBalance(chain: seq<Block>, addr: string): int { Balance(AllTxs(chain), addr) }

  function Fees(txs: seq<Tx>): nat {
    if txs == [] then 0 else Fees(txs[..|txs| - 1]) + txs[|txs| - 1].fee
  }

  lemma {:induction false} BalanceConcat(s: seq<Tx>, t: seq<Tx>, addr: string)
    ensures Balance(s + t, addr) == Balance(s, addr) + Balance(t, addr)
  {
    if t == [] {
      assert s + t == s;
    } else {
      var n := |t| - 1;
      assert (s + t)[..|s + t| - 1] == s + t[..n];
      BalanceConcat(s, t[..n], addr);
    }
  }

  lemma ChainBalanceGrows(chain: seq<Block>, block: Block, addr: string)
    ensures AllTxs(chain + [block]) == AllTxs(chain) + block.txs
    ensures ChainBalance(chain + [block], addr) == ChainBalance(chain, addr) + Balance(block.txs, addr)
  {
    assert (chain + [block])[..|chain|] == chain;
    BalanceConcat(AllTxs(chain), block.txs, addr);
  }

  /** What one transaction does to the accumulator of `chain_get_balance`. */
  function MachineStep(balance: I64, tx: Tx, addr: string): I64 {
    var credited := if tx.receiver == addr then AddI64(balance, AsSigned(tx.amount)) else balance;
    if tx.sender == addr then SubI64(credited, AsSigned(AddU64(tx.amount, tx.fee))) else credited
  }

  /** The balance in machine arithmetic. */
  function MachineBalance(txs: seq<Tx>, addr: string): I64 {
    if txs == [] then 0 else MachineStep(MachineBalance(txs[..|txs| - 1], addr), txs[|txs| - 1], addr)
  }

  /**
   Whatever overflows on the way, and although a total cost may wrap before it
   is subtracted: the result is the exact balance read as 64 signed bits.
   */
  lemma {:induction false} MachineBalanceIsExact(txs: seq<Tx>, addr: string)
    ensures MachineBalance(txs, addr) == ToI64(Balance(txs, addr))
    ensures MachineBalance(txs, addr) == Balance(txs, addr) <==> -TWO_63 <= Balance(txs, addr) < TWO_63
  {
    if txs != [] {
      var rest, tx := txs[..|txs| - 1], txs[|txs| - 1];
      MachineBalanceIsExact(rest, addr);
      MachineStepIsExact(Balance(rest, addr), tx, addr);
    }
    ToI64Exact(Balance(txs, addr));
  }

  lemma MachineStepIsExact(exact: int, tx: Tx, addr: string)
    ensures MachineStep(ToI64(exact), tx, addr) == ToI64(exact + Received(tx, addr) - Spent(tx, addr))
  {
    AddExact(exact, tx.amount);
    SubExact(exact + Received(tx, addr), tx.amount, tx.fee);
  }

  /** `chain_get_balance` */
  method GetBalance(chain: Blockchain, addr: CString) returns (balance: I64)
    requires chain.Valid()
    ensures balance == MachineBalance(AllTxs(chain.Contents()), addr)
    ensures balance == ToI64(ChainBalance(chain.Contents(), addr))
  {
    balance := 0;
    ghost var c := chain.Contents();
    assert AllTxs(c[..0]) == [];
    for i := 0 to chain.length
      invariant balance == MachineBalance(AllTxs(c[..i]), addr)
    {
      assert c[..i + 1][..i] == c[..i];
      balance := AddBlockTxs(chain.blocks[i].txs, addr, balance, AllTxs(c[..i]));
    }
    assert c[..chain.length] == c;
    MachineBalanceIsExact(AllTxs(c), addr);
  }

  /** The inner loop of `chain_get_balance`. */
  method AddBlockTxs(txs: seq<Tx>, addr: CString, start: I64, ghost before: seq<Tx>) returns (balance: I64)
    requires start == MachineBalance(before, addr)
    ensures balance == MachineBalance(before + txs, addr)
  {
    balance := start;
    assert before + txs[..0] == before;
    for j := 0 to |txs|
      invariant balance == MachineBalance(before + txs[..j], addr)
    {
      var tx := txs[j];
      assert (before + txs[..j + 1])[..|before| + j] == before + txs[..j];
      if tx.receiver == addr {
        balance := AddI64(balance, AsSigned(tx.amount));
      }
      if tx.sender == addr {
        balance := SubI64(balance, AsSigned(AddU64(tx.amount, tx.fee)));
      }
    }
    assert txs[..|txs|] == txs;
  }

  // Conservation

  predicate Distinct(addrs: seq<string>) {
    forall i, j | 0 <= i < j < |addrs| :: addrs[i] != addrs[j]
  }

  function SumOfBalances(addrs: seq<string>, txs: seq<Tx>): int {
    if addrs == [] then 0
    else SumOfBalances(addrs[..|addrs| - 1], txs) + Balance(txs, addrs[|addrs| - 1])
  }

  lemma {:induction false} SumOfNothing(addrs: seq<string>)
    ensures SumOfBalances(addrs, []) == 0
  {
    if addrs != [] { SumOfNothing(addrs[..|addrs| - 1]); }
  }

  /** One transaction moves its amount to the one receiver and its whole cost from the one sender. */
  lemma {:induction false} SumStep(addrs: seq<string>, txs: seq<Tx>, tx: Tx)
    requires Distinct(addrs)
    ensures SumOfBalances(addrs, txs + [tx]) == SumOfBalances(addrs, txs)
              + (if tx.receiver in addrs then tx.amount else 0)
              - (if tx.sender in addrs then tx.amount + tx.fee else 0)
  {
    assert (txs + [tx])[..|txs|] == txs;
    if addrs != [] {
      var rest, last := addrs[..|addrs| - 1], addrs[|addrs| - 1];
      SumStep(rest, txs, tx);
      assert last !in rest;
      assert forall a | a in addrs :: a in rest || a == last;
      assert forall a | a in rest :: a in addrs;
    }
  }

  predicate Names(addrs: seq<string>, txs: seq<Tx>) {
    forall i | 0 <= i < |txs| :: txs[i].sender in addrs && txs[i].receiver in addrs
  }

  /**
   Conservation, for every list of transactions whatever: all balances
   together, COINBASE included, lose exactly the fees.
   */
  lemma {:induction false} FeesAreTheOnlyLeak(addrs: seq<string>, txs: seq<Tx>)
    requires Distinct(addrs) && Names(addrs, txs)
    ensures SumOfBalances(addrs, txs) == 0 - Fees(txs)
  {
    if txs == [] {
      SumOfNothing(addrs);
    } else {
      var n := |txs| - 1;
      FeesAreTheOnlyLeak(addrs, txs[..n]);
      SumStep(addrs, txs[..n], txs[n]);
      assert txs[..n] + [txs[n]] == txs;
    }
  }
}
