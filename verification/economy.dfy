/**
 What the ledger guarantees for chains that honest miners assembled: the exact
 supply, how far a balance can fall, and when it cannot fall below zero.
 */
module Economy {
  import opened Machine
  import opened Records
  import opened Ledger
  import opened Mining

  /** `block` is what `do_mine` can put behind `prefix`: a coinbase with the
      reward and the fees, then transactions that passed the balance test. */
  predicate Assembled(sha: Hasher, prefix: seq<Block>, block: Block) {
    && |block.txs| > 0
    && block.txs[0] == Coinbase(sha, block.txs[0].receiver, TotalFees(block.txs[1..]))
    && forall i | 1 <= i < |block.txs| :: Affordable(prefix, block.txs[i])
  }

  predicate ChainAssembled(sha: Hasher, chain: seq<Block>) {
    && |chain| > 0 && chain[0].txs == []
    && forall i | 1 <= i < |chain| :: Assembled(sha, chain[..i], chain[i])
  }

  /** Cost without wrap-around, and COINBASE is nobody's account. */
  predicate Ordinary(tx: Tx) {
    tx.amount + tx.fee < TWO_63 && tx.sender != COINBASE_ADDR && tx.receiver != COINBASE_ADDR
  }

  predicate OrdinaryBlock(block: Block) {
    && |block.txs| > 0 && block.txs[0].receiver != COINBASE_ADDR
    && forall i | 1 <= i < |block.txs| :: Ordinary(block.txs[i])
  }

  /** No sender appears twice among the ordinary transactions. */
  predicate DistinctSenders(block: Block) {
    forall i, j | 1 <= i < j < |block.txs| :: block.txs[i].sender != block.txs[j].sender
  }

  // The overdraft bound

  function Debits(txs: seq<Tx>, addr: string): nat {
    if txs == [] then 0
    else Debits(txs[..|txs| - 1], addr) + if txs[|txs| - 1].sender == addr then 1 else 0
  }

  lemma {:induction false} DebitsAtMost(txs: seq<Tx>, addr: string)
    ensures Debits(txs, addr) <= |txs|
    ensures Debits(txs, addr) > 0 <==> exists i :: 0 <= i < |txs| && txs[i].sender == addr
  {
    if txs != [] { DebitsAtMost(txs[..|txs| - 1], addr); }
  }

  lemma {:induction false} SingleDebit(txs: seq<Tx>, addr: string)
    requires forall i, j | 0 <= i < j < |txs| :: txs[i].sender != txs[j].sender
    ensures Debits(txs, addr) <= 1
  {
    if txs != [] {
      SingleDebit(txs[..|txs| - 1], addr);
      DebitsAtMost(txs[..|txs| - 1], addr);
    }
  }

  /** Debits of at most `b` each cannot take more than `b` each. */
  lemma {:induction false} DebitBound(txs: seq<Tx>, addr: string, b: nat)
    requires forall i | 0 <= i < |txs| && txs[i].sender == addr :: txs[i].amount + txs[i].fee <= b
    ensures Balance(txs, addr) >= 0 - Debits(txs, addr) * b
  {
    if txs != [] {
      var d := Debits(txs[..|txs| - 1], addr);
      DebitBound(txs[..|txs| - 1], addr, b);
      assert (d + 1) * b == d * b + b;
    }
  }

  predicate Exact(chain: seq<Block>, addr: string) {
    -TWO_63 <= ChainBalance(chain, addr) < TWO_63
  }

  /** For ordinary transactions the test with casts is the test without them. */
  lemma AffordableMeans(chain: seq<Block>, tx: Tx)
    requires Ordinary(tx) && Exact(chain, tx.sender)
    ensures Affordable(chain, tx) <==> ChainBalance(chain, tx.sender) >= tx.amount + tx.fee
  {
    MachineBalanceIsExact(AllTxs(chain), tx.sender);
  }

  /** A block leads with its coinbase, which debits no real account. */
  lemma BlockSplits(sha: Hasher, prefix: seq<Block>, block: Block, addr: string)
    requires Assembled(sha, prefix, block) && addr != COINBASE_ADDR
    ensures Balance(block.txs, addr) == Received(block.txs[0], addr) + Balance(block.txs[1..], addr)
    ensures Debits(block.txs, addr) == Debits(block.txs[1..], addr)
  {
    assert block.txs == [block.txs[0]] + block.txs[1..];
    BalanceConcat([block.txs[0]], block.txs[1..], addr);
    DebitsConcat([block.txs[0]], block.txs[1..], addr);
    assert [block.txs[0]][..0] == [];
  }

  lemma {:induction false} DebitsConcat(s: seq<Tx>, t: seq<Tx>, addr: string)
    ensures Debits(s + t, addr) == Debits(s, addr) + Debits(t, addr)
  {
    if t == [] {
      assert s + t == s;
    } else {
      assert (s + t)[..|s + t| - 1] == s + t[..|t| - 1];
      DebitsConcat(s, t[..|t| - 1], addr);
    }
  }

  /**
   The overdraft bound. A block that debits an account `m` times leaves it at
   least `(1 - m) * b` of its balance `b`; `m` is at most nine, and an account
   below zero is not debited at all.
   */
  lemma OverdraftBound(sha: Hasher, prefix: seq<Block>, block: Block, addr: string)
    requires Assembled(sha, prefix, block) && OrdinaryBlock(block)
    requires addr != COINBASE_ADDR && Exact(prefix, addr)
    ensures var b, m := ChainBalance(prefix, addr), Debits(block.txs, addr);
            var after := ChainBalance(prefix + [block], addr);
            && m <= ROOM
            && (b < 0 ==> m == 0 && after >= b)
            && (b >= 0 ==> after >= (1 - m) * b && after >= -8 * b)
  {
    var b, picked := ChainBalance(prefix, addr), block.txs[1..];
    var m := Debits(block.txs, addr);
    ChainBalanceGrows(prefix, block, addr);
    BlockSplits(sha, prefix, block, addr);
    DebitsAtMost(picked, addr);
    forall i | 0 <= i < |picked| && picked[i].sender == addr
      ensures 0 <= picked[i].amount + picked[i].fee <= b
    {
      assert picked[i] == block.txs[i + 1];
      AffordableMeans(prefix, picked[i]);
    }
    DebitBound(picked, addr, if b < 0 then 0 else b);
    if b >= 0 { DebitShare(m, b); }
  }

  lemma DebitShare(m: nat, b: nat)
    requires m <= ROOM
    ensures b - m * b == (1 - m) * b >= -8 * b
  {
  }

  /** The mempool that reaches the bound: `m` times the whole balance. */
  function Drain(from: Text64, to: Text64, b: U64, m: nat): (pool: seq<Tx>)
    requires b > 0
    ensures |pool| == m
  {
    if m == 0 then [] else Drain(from, to, b, m - 1) + [Tx(from, to, b - 1, 1, "", "")]
  }

  lemma {:induction false} DrainIsAffordable(chain: seq<Block>, from: Text64, to: Text64, b: U64, m: nat)
    requires 0 < b == ChainBalance(chain, from) < TWO_63
    ensures AffordableOnes(chain, Drain(from, to, b, m)) == Drain(from, to, b, m)
  {
    if m > 0 {
      var pool := Drain(from, to, b, m);
      assert pool[..m - 1] == Drain(from, to, b, m - 1);
      DrainIsAffordable(chain, from, to, b, m - 1);
      MachineBalanceIsExact(AllTxs(chain), from);
      assert Affordable(chain, pool[m - 1]);
    }
  }

  lemma {:induction false} DrainTakes(from: Text64, to: Text64, b: U64, m: nat)
    requires b > 0 && from != to
    ensures Debits(Drain(from, to, b, m), from) == m
    ensures Balance(Drain(from, to, b, m), from) == 0 - m * b
  {
    if m > 0 {
      assert Drain(from, to, b, m)[..m - 1] == Drain(from, to, b, m - 1);
      DrainTakes(from, to, b, m - 1);
      assert 0 - (m - 1) * b - b == 0 - m * b;
    }
  }

  lemma {:induction false} DrainIsOrdinary(from: Text64, to: Text64, b: U64, m: nat)
    requires 0 < b < TWO_63 && from != COINBASE_ADDR && to != COINBASE_ADDR
    ensures forall tx | tx in Drain(from, to, b, m) :: Ordinary(tx)
  {
    if m > 0 { DrainIsOrdinary(from, to, b, m - 1); }
  }

  /** The block the selection loop makes of that mempool. */
  function DrainBlock(sha: Hasher, chain: seq<Block>, from: Text64, to: Text64, m: nat): Block
    requires 0 < ChainBalance(chain, from) < TWO_63 && |chain| > 0
  {
    var picked := Select(chain, Drain(from, to, ChainBalance(chain, from), m));
    Template(sha, chain[|chain| - 1], 0, picked, to)
  }

  lemma DrainBlockIsAssembled(sha: Hasher, chain: seq<Block>, from: Text64, to: Text64, m: nat)
    requires |chain| > 0 && 0 < ChainBalance(chain, from) < TWO_63 && m <= ROOM
    requires from != COINBASE_ADDR && to != COINBASE_ADDR
    ensures var block := DrainBlock(sha, chain, from, to, m);
            && Assembled(sha, chain, block) && OrdinaryBlock(block)
            && block.txs[1..] == Drain(from, to, ChainBalance(chain, from), m)
            && block.txs[0].receiver == to
  {
    var b := ChainBalance(chain, from);
    var picked, block := Drain(from, to, b, m), DrainBlock(sha, chain, from, to, m);
    DrainIsAffordable(chain, from, to, b, m);
    assert block.txs[1..] == picked;
    forall i | 1 <= i < |block.txs| ensures Affordable(chain, block.txs[i]) && Ordinary(block.txs[i]) {
      assert block.txs[i] == picked[i - 1] && picked[i - 1] in picked;
      AffordableIsJudged(chain, picked, block.txs[i]);
      DrainIsOrdinary(from, to, b, m);
    }
  }

  /** The bound is tight for every number of debits: this block takes the
      balance `b` down to exactly `(1 - m) * b`. */
  lemma OverdraftIsTight(sha: Hasher, chain: seq<Block>, from: Text64, to: Text64, m: nat)
    requires |chain| > 0 && 0 < ChainBalance(chain, from) < TWO_63 && m <= ROOM
    requires from != to && from != COINBASE_ADDR && to != COINBASE_ADDR
    ensures var block := DrainBlock(sha, chain, from, to, m);
            && Assembled(sha, chain, block) && OrdinaryBlock(block)
            && Debits(block.txs, from) == m
            && ChainBalance(chain + [block], from) == (1 - m) * ChainBalance(chain, from)
  {
    var b, block := ChainBalance(chain, from), DrainBlock(sha, chain, from, to, m);
    DrainBlockIsAssembled(sha, chain, from, to, m);
    BlockSplits(sha, chain, block, from);
    DrainTakes(from, to, b, m);
    ChainBalanceGrows(chain, block, from);
    DebitShare(m, b);
  }

  /**
   When a balance cannot go below zero: every block with `m` debits of the
   account is safe for it exactly when `m` is at most one, or nothing is there
   to spend. The code has no such guard, so plain solvency fails.
   */
  lemma SafeExactlyWithoutRepeat(sha: Hasher, chain: seq<Block>, from: Text64, to: Text64, m: nat)
    requires |chain| > 0 && 0 <= ChainBalance(chain, from) < TWO_63 && m <= ROOM
    requires from != to && from != COINBASE_ADDR && to != COINBASE_ADDR
    ensures (forall block | Assembled(sha, chain, block) && OrdinaryBlock(block) && Debits(block.txs, from) == m ::
               ChainBalance(chain + [block], from) >= 0)
            <==> m <= 1 || ChainBalance(chain, from) == 0
  {
    var b := ChainBalance(chain, from);
    if m <= 1 || b == 0 {
      forall block | Assembled(sha, chain, block) && OrdinaryBlock(block) && Debits(block.txs, from) == m
        ensures ChainBalance(chain + [block], from) >= 0
      {
        OverdraftBound(sha, chain, block, from);
        assert (1 - m) * b >= 0;
      }
    } else {
      OverdraftIsTight(sha, chain, from, to, m);
      assert (1 - m) * b < 0 by { RepeatLoses(m, b); }
    }
  }

  lemma RepeatLoses(m: nat, b: nat)
    requires m > 1 && b > 0
    ensures (1 - m) * b < 0
  {
    MultipleAtLeast(m - 1, b);
    assert (1 - m) * b == 0 - (m - 1) * b;
  }

  // The exact supply

  /** `addrs` lists every account but COINBASE, once. */
  predicate RealAccounts(addrs: seq<string>, txs: seq<Tx>) {
    && Distinct(addrs) && COINBASE_ADDR !in addrs
    && forall i | 0 <= i < |txs| :: Lists(addrs, txs[i])
  }

  predicate Lists(addrs: seq<string>, tx: Tx) {
    && (tx.sender == COINBASE_ADDR || tx.sender in addrs)
    && (tx.receiver == COINBASE_ADDR || tx.receiver in addrs)
  }

  predicate FeesFit(chain: seq<Block>) {
    forall i | 1 <= i < |chain| :: |chain[i].txs| > 0 && 50 + Fees(chain[i].txs[1..]) < TWO_64
  }

  predicate OrdinaryChain(chain: seq<Block>) {
    forall i | 1 <= i < |chain| :: OrdinaryBlock(chain[i])
  }

  lemma {:induction false} OrdinarySum(addrs: seq<string>, before: seq<Tx>, txs: seq<Tx>)
    requires RealAccounts(addrs, txs)
    requires forall i | 0 <= i < |txs| :: Ordinary(txs[i])
    ensures SumOfBalances(addrs, before + txs) == SumOfBalances(addrs, before) - Fees(txs)
  {
    if txs == [] {
      assert before + txs == before;
    } else {
      var n := |txs| - 1;
      OrdinarySum(addrs, before, txs[..n]);
      SumStep(addrs, before + txs[..n], txs[n]);
      assert before + txs == before + txs[..n] + [txs[n]];
    }
  }

  lemma CoinbaseSum(addrs: seq<string>, before: seq<Tx>, coinbase: Tx, picked: seq<Tx>)
    requires coinbase.sender == COINBASE_ADDR && coinbase.receiver in addrs
    requires coinbase.amount == 50 + Fees(picked)
    requires RealAccounts(addrs, picked) && forall i | 0 <= i < |picked| :: Ordinary(picked[i])
    ensures SumOfBalances(addrs, before + [coinbase] + picked) == SumOfBalances(addrs, before) + 50
  {
    SumStep(addrs, before, coinbase);
    OrdinarySum(addrs, before + [coinbase], picked);
  }

  lemma CoinbasePays(sha: Hasher, miner: CString, picked: seq<Tx>)
    requires 50 + Fees(picked) < TWO_64
    ensures var t := Coinbase(sha, miner, TotalFees(picked));
            t.sender == "COINBASE" && t.amount == 50 + Fees(picked) && t.fee == 0
  {
    TotalFeesExact(picked);
  }

  /** Every block creates 50 coins: the fees only move to the miner. */
  lemma BlockSum(sha: Hasher, addrs: seq<string>, before: seq<Tx>, block: Block)
    requires OrdinaryBlock(block)
    requires block.txs[0] == Coinbase(sha, block.txs[0].receiver, TotalFees(block.txs[1..]))
    requires RealAccounts(addrs, block.txs) && 50 + Fees(block.txs[1..]) < TWO_64
    ensures SumOfBalances(addrs, before + block.txs) == SumOfBalances(addrs, before) + 50
  {
    hide Ordinary, Coinbase;
    assert Lists(addrs, block.txs[0]);
    var coinbase, picked := block.txs[0], block.txs[1..];
    TotalFeesExact(picked);
    CoinbasePays(sha, coinbase.receiver, picked);
    assert forall i | 0 <= i < |picked| :: picked[i] == block.txs[i + 1];
    CoinbaseSum(addrs, before, coinbase, picked);
    assert before + block.txs == before + [coinbase] + picked;
  }

  lemma {:induction false} ExactSupply(sha: Hasher, addrs: seq<string>, chain: seq<Block>)
    requires ChainAssembled(sha, chain) && OrdinaryChain(chain) && FeesFit(chain)
    requires RealAccounts(addrs, AllTxs(chain))
    ensures SumOfBalances(addrs, AllTxs(chain)) == 50 * (|chain| - 1)
  {
    var n := |chain| - 1;
    var before, block := AllTxs(chain[..n]), chain[n];
    assert AllTxs(chain) == before + block.txs;
    if n == 0 {
      SumOfNothing(addrs);
    } else {
      PrefixAssembled(sha, chain, n);
      assert forall i | 0 <= i < |before| :: before[i] == AllTxs(chain)[i];
      assert forall i | 0 <= i < |block.txs| :: block.txs[i] == AllTxs(chain)[|before| + i];
      ExactSupply(sha, addrs, chain[..n]);
      assert Assembled(sha, chain[..n], block);
      BlockSum(sha, addrs, before, block);
    }
  }

  lemma PrefixAssembled(sha: Hasher, chain: seq<Block>, n: nat)
    requires ChainAssembled(sha, chain) && 0 < n <= |chain|
    ensures ChainAssembled(sha, chain[..n])
  {
    forall i | 1 <= i < n ensures Assembled(sha, chain[..n][..i], chain[..n][i]) {
      assert chain[..n][..i] == chain[..i];
    }
  }

  // Solvency

  function Enlist(addrs: seq<string>, addr: string): (r: seq<string>)
    requires Distinct(addrs) && COINBASE_ADDR !in addrs
    ensures Distinct(r) && COINBASE_ADDR !in r
    ensures addrs <= r && (addr == COINBASE_ADDR || addr in r)
  {
    if addr == COINBASE_ADDR || addr in addrs then addrs else addrs + [addr]
  }

  /** Every account but COINBASE that the transactions name, once. */
  function Accounts(txs: seq<Tx>): (addrs: seq<string>)
    ensures Distinct(addrs) && COINBASE_ADDR !in addrs
  {
    if txs == [] then []
    else Enlist(Enlist(Accounts(txs[..|txs| - 1]), txs[|txs| - 1].sender), txs[|txs| - 1].receiver)
  }

  lemma StillListed(r: seq<string>, s: seq<string>, tx: Tx)
    requires r <= s && Lists(r, tx)
    ensures Lists(s, tx)
  {
    assert forall i | 0 <= i < |r| :: s[i] == r[i];
  }

  lemma BothListed(addrs: seq<string>, more: seq<string>, tx: Tx)
    requires Distinct(addrs) && COINBASE_ADDR !in addrs
    requires more == Enlist(Enlist(addrs, tx.sender), tx.receiver)
    ensures addrs <= more && Lists(more, tx)
  {
    var once := Enlist(addrs, tx.sender);
    assert forall i | 0 <= i < |once| :: more[i] == once[i];
  }

  lemma {:induction false} AccountsAreAll(txs: seq<Tx>)
    ensures forall i | 0 <= i < |txs| :: Lists(Accounts(txs), txs[i])
  {
    if txs != [] {
      var rest, last := txs[..|txs| - 1], txs[|txs| - 1];
      var fewer, more := Accounts(rest), Accounts(txs);
      AccountsAreAll(rest);
      BothListed(fewer, more, last);
      forall i | 0 <= i < |txs| ensures Lists(more, txs[i]) {
        if i < |rest| {
          assert Lists(fewer, rest[i]);
          StillListed(fewer, more, txs[i]);
        }
      }
    }
  }

  lemma {:induction false} UnnamedIsZero(txs: seq<Tx>, addr: string)
    requires forall i | 0 <= i < |txs| :: txs[i].sender != addr && txs[i].receiver != addr
    ensures Balance(txs, addr) == 0
  {
    if txs != [] { UnnamedIsZero(txs[..|txs| - 1], addr); }
  }

  lemma {:induction false} PartOfSum(addrs: seq<string>, txs: seq<Tx>)
    requires forall a | a in addrs :: Balance(txs, a) >= 0
    ensures SumOfBalances(addrs, txs) >= 0
    ensures forall a | a in addrs :: Balance(txs, a) <= SumOfBalances(addrs, txs)
  {
    if addrs != [] {
      var rest := addrs[..|addrs| - 1];
      assert forall a | a in rest :: a in addrs;
      PartOfSum(rest, txs);
      assert forall a | a in addrs :: a in rest || a == addrs[|addrs| - 1];
    }
  }

  predicate Within(chain: seq<Block>, addr: string) {
    0 <= ChainBalance(chain, addr) <= 50 * (|chain| - 1)
  }

  /**
   Solvency. If no block debits an account twice, every balance of a real
   account lies between 0 and what has been mined, at every height. Balances
   stay below half a million, so 64 bits are plenty.
   */
  lemma {:induction false} Solvency(sha: Hasher, chain: seq<Block>)
    requires ChainAssembled(sha, chain) && OrdinaryChain(chain) && |chain| <= MAX_BLOCKS
    requires forall i | 1 <= i < |chain| :: DistinctSenders(chain[i])
    ensures FeesFit(chain)
    ensures forall addr | addr != COINBASE_ADDR :: Within(chain, addr)
  {
    var n := |chain| - 1;
    if n == 0 {
      assert AllTxs(chain) == AllTxs(chain[..0]) + chain[0].txs == [];
    } else {
      var prefix, block := chain[..n], chain[n];
      assert chain == prefix + [block];
      PrefixAssembled(sha, chain, n);
      Solvency(sha, prefix);
      FeesStaySmall(sha, prefix, block);
      forall i | 1 <= i < |chain| ensures 50 + Fees(chain[i].txs[1..]) < TWO_64 {
        if i < n { assert prefix[i] == chain[i]; }
      }
      forall addr | addr != COINBASE_ADDR ensures ChainBalance(chain, addr) >= 0 {
        assert Within(prefix, addr);
        OneDebitEach(sha, prefix, block, addr);
      }
      NobodyHasMoreThanAll(sha, chain);
    }
  }

  lemma OneDebitEach(sha: Hasher, prefix: seq<Block>, block: Block, addr: string)
    requires Assembled(sha, prefix, block) && OrdinaryBlock(block) && DistinctSenders(block)
    requires addr != COINBASE_ADDR && 0 <= ChainBalance(prefix, addr) < TWO_63
    ensures ChainBalance(prefix + [block], addr) >= 0
  {
    var picked := block.txs[1..];
    assert forall i | 0 <= i < |picked| :: picked[i] == block.txs[i + 1];
    SingleDebit(picked, addr);
    BlockSplits(sha, prefix, block, addr);
    OverdraftBound(sha, prefix, block, addr);
  }

  lemma {:induction false} FeesAtMost(txs: seq<Tx>, b: nat)
    requires forall i | 0 <= i < |txs| :: txs[i].fee <= b
    ensures Fees(txs) <= |txs| * b
  {
    if txs != [] {
      FeesAtMost(txs[..|txs| - 1], b);
      assert |txs| * b == (|txs| - 1) * b + b;
    }
  }

  lemma FeesStaySmall(sha: Hasher, prefix: seq<Block>, block: Block)
    requires Assembled(sha, prefix, block) && OrdinaryBlock(block)
    requires |prefix| <= MAX_BLOCKS && forall addr | addr != COINBASE_ADDR :: Within(prefix, addr)
    ensures Fees(block.txs[1..]) <= ROOM * 500_000
  {
    var picked := block.txs[1..];
    forall i | 0 <= i < |picked| ensures picked[i].fee <= 500_000 {
      assert picked[i] == block.txs[i + 1];
      assert Within(prefix, picked[i].sender);
      AffordableMeans(prefix, picked[i]);
    }
    FeesAtMost(picked, 500_000);
  }

  lemma NobodyHasMoreThanAll(sha: Hasher, chain: seq<Block>)
    requires ChainAssembled(sha, chain) && OrdinaryChain(chain) && FeesFit(chain)
    requires forall addr | addr != COINBASE_ADDR :: ChainBalance(chain, addr) >= 0
    ensures forall addr | addr != COINBASE_ADDR :: Within(chain, addr)
  {
    var addrs := Accounts(AllTxs(chain));
    AccountsAreAll(AllTxs(chain));
    ExactSupply(sha, addrs, chain);
    forall a | a in addrs ensures Balance(AllTxs(chain), a) >= 0 {
      assert ChainBalance(chain, a) >= 0;
    }
    PartOfSum(addrs, AllTxs(chain));
    forall addr | addr != COINBASE_ADDR ensures Within(chain, addr) {
      assert ChainBalance(chain, addr) >= 0;
      OutsidersHaveNothing(addrs, AllTxs(chain), addr);
    }
  }

  lemma OutsidersHaveNothing(addrs: seq<string>, txs: seq<Tx>, addr: string)
    requires RealAccounts(addrs, txs) && addr != COINBASE_ADDR
    ensures addr in addrs || Balance(txs, addr) == 0
  {
    if addr !in addrs { UnnamedIsZero(txs, addr); }
  }

  lemma {:induction false} AmountsAtMost(txs: seq<Tx>, addr: string, b: nat)
    requires forall i | 0 <= i < |txs| :: txs[i].amount <= b
    ensures Balance(txs, addr) <= |txs| * b
  {
    if txs != [] {
      AmountsAtMost(txs[..|txs| - 1], addr, b);
      assert |txs| * b == (|txs| - 1) * b + b;
    }
  }

  lemma AmountsStaySmall(sha: Hasher, prefix: seq<Block>, block: Block)
    requires Assembled(sha, prefix, block) && OrdinaryBlock(block)
    requires |prefix| <= MAX_BLOCKS && forall addr | addr != COINBASE_ADDR :: Within(prefix, addr)
    ensures forall i | 0 <= i < |block.txs| :: block.txs[i].amount <= 5_000_000
  {
    FeesStaySmall(sha, prefix, block);
    TotalFeesExact(block.txs[1..]);
    forall i | 1 <= i < |block.txs| ensures block.txs[i].amount <= 5_000_000 {
      assert Within(prefix, block.txs[i].sender);
      AffordableMeans(prefix, block.txs[i]);
    }
  }

  lemma AtMostOnce(m: nat, b: nat)
    requires m <= 1
    ensures m * b <= b
  {
  }

  /** Halfway through a block a balance is still not negative, and small. */
  lemma HalfwayThrough(sha: Hasher, prefix: seq<Block>, block: Block, addr: string, j: nat)
    requires Assembled(sha, prefix, block) && OrdinaryBlock(block) && DistinctSenders(block)
    requires |prefix| <= MAX_BLOCKS && forall a | a != COINBASE_ADDR :: Within(prefix, a)
    requires addr != COINBASE_ADDR && j <= |block.txs|
    ensures 0 <= ChainBalance(prefix, addr) + Balance(block.txs[..j], addr) <= 60_000_000
  {
    var b := ChainBalance(prefix, addr);
    assert Within(prefix, addr);
    AmountsStaySmall(sha, prefix, block);
    AmountsAtMost(block.txs[..j], addr, 5_000_000);
    if j > 0 {
      var coinbase, picked := block.txs[0], block.txs[1..j];
      assert block.txs[..j] == [coinbase] + picked;
      BalanceConcat([coinbase], picked, addr);
      assert [coinbase][..0] == [];
      forall i | 0 <= i < |picked| && picked[i].sender == addr ensures picked[i].amount + picked[i].fee <= b {
        assert picked[i] == block.txs[i + 1];
        AffordableMeans(prefix, picked[i]);
      }
      assert forall i | 0 <= i < |picked| :: picked[i] == block.txs[i + 1];
      SingleDebit(picked, addr);
      DebitBound(picked, addr, b);
      AtMostOnce(Debits(picked, addr), b);
    }
  }

  /** The running sum of `chain_get_balance` stays far from overflow at every
      step, both before and after each credit. */
  lemma {:induction false} NoSumOverflows(sha: Hasher, chain: seq<Block>, addr: string, k: nat)
    requires ChainAssembled(sha, chain) && OrdinaryChain(chain) && |chain| <= MAX_BLOCKS
    requires forall i | 1 <= i < |chain| :: DistinctSenders(chain[i])
    requires addr != COINBASE_ADDR && k <= |AllTxs(chain)|
    ensures 0 <= Balance(AllTxs(chain)[..k], addr) <= 60_000_000
    ensures k < |AllTxs(chain)| ==> AllTxs(chain)[k].amount <= 5_000_000
  {
    var n := |chain| - 1;
    var prefix, block, txs := chain[..n], chain[n], AllTxs(chain);
    var before := AllTxs(prefix);
    assert txs == before + block.txs;
    if n > 0 {
      PrefixAssembled(sha, chain, n);
      Solvency(sha, prefix);
      assert Assembled(sha, prefix, block);
      if k < |before| {
        NoSumOverflows(sha, prefix, addr, k);
        assert txs[..k] == before[..k];
      } else {
        var j := k - |before|;
        HalfwayThrough(sha, prefix, block, addr, j);
        AmountsStaySmall(sha, prefix, block);
        BalanceConcat(before, block.txs[..j], addr);
        assert txs[..k] == before + block.txs[..j];
      }
    }
  }

  /** What the program computes for a real account on such a chain is exact. */
  lemma BalancesAreExact(sha: Hasher, chain: seq<Block>, addr: string)
    requires ChainAssembled(sha, chain) && OrdinaryChain(chain) && |chain| <= MAX_BLOCKS
    requires forall i | 1 <= i < |chain| :: DistinctSenders(chain[i])
    requires addr != COINBASE_ADDR
    ensures MachineBalance(AllTxs(chain), addr) == ChainBalance(chain, addr) <= 499_950
  {
    Solvency(sha, chain);
    assert Within(chain, addr);
    MachineBalanceIsExact(AllTxs(chain), addr);
  }
}
