/** The chain and the longest-chain rule: `src/chain.c`. */
module Chains {
  import opened Machine
  import opened Records
  import opened Blocks

  /** Does `block` stand correctly behind `prev`? One turn of `chain_validate`. */
  predicate LinkValid(sha: Hasher, prev: Block, block: Block) {
    block.prevHash == prev.hash && BlockValid(sha, block)
  }

  lemma LinkExactly(sha: Hasher, prev: Block, block: Block)
    ensures LinkValid(sha, prev, block)
            <==> block.prevHash == prev.hash && block.hash == sha(PreImage(block)) && block.hash[..2] == "00"
  {
    if |block.hash| >= 2 { assert block.hash[..2] == [block.hash[0], block.hash[1]]; }
  }

  /** What `chain_validate` accepts. It looks at no index, and not at block 0. */
  predicate ChainValid(sha: Hasher, chain: seq<Block>) {
    forall i | 1 <= i < |chain| :: LinkValid(sha, chain[i - 1], chain[i])
  }

  /** What `chain_add_block` accepts. */
  predicate Accepts(sha: Hasher, chain: seq<Block>, block: Block)
    requires |chain| > 0
  {
    var last := chain[|chain| - 1];
    && |chain| < MAX_BLOCKS
    && block.index == ToU32(last.index + 1)
    && LinkValid(sha, last, block)
  }

  function AddBlock(sha: Hasher, chain: seq<Block>, block: Block): seq<Block>
    requires |chain| > 0
  {
    if Accepts(sha, chain, block) then chain + [block] else chain
  }

  function Replace(sha: Hasher, chain: seq<Block>, other: seq<Block>): seq<Block> {
    if |other| > |chain| && ChainValid(sha, other) then other else chain
  }

  class Blockchain {
    const sha: Hasher
    const blocks: array<Block>
    var length: nat

    ghost predicate Valid()
      reads this
    {
      length <= blocks.Length == MAX_BLOCKS
    }

    function Contents(): (c: seq<Block>)
      requires Valid()
      reads this, blocks
      ensures |c| == length
    {
      blocks[..length]
    }

    /** `chain_init` */
    constructor (sha: Hasher, ghost witnessNonce: U64)
      requires NonceWorks(sha, GenesisTemplate(), witnessNonce)
      ensures Valid() && fresh(blocks) && this.sha == sha
      ensures length == 1 && IsGenesis(sha, Contents()[0])
    {
      var genesis := CreateGenesis(sha, witnessNonce);
      this.sha := sha;
      blocks := new Block[MAX_BLOCKS](_ => genesis);
      length := 1;
    }

    /** A zeroed chain, as `calloc` makes it for a chain that is received. */
    constructor Empty(sha: Hasher)
      ensures Valid() && fresh(blocks) && this.sha == sha && length == 0
    {
      this.sha := sha;
      blocks := new Block[MAX_BLOCKS](_ => Block(0, 0, [], "", 0, ""));
      length := 0;
    }

    /** `chain_last_block`: no block stands for NULL. */
    method LastBlock() returns (last: Option<Block>)
      requires Valid()
      ensures last == if length == 0 then None else Some(Contents()[length - 1])
    {
      if length == 0 {
        return None;
      }
      return Some(blocks[length - 1]);
    }

    /** `chain_add_block` */
    method Add(block: Block) returns (ret: int)
      requires Valid() && length > 0
      modifies this`length, blocks
      ensures Valid()
      ensures Contents() == AddBlock(sha, old(Contents()), block)
      ensures ret == if Accepts(sha, old(Contents()), block) then 0 else -1
      ensures var last := old(Contents()[length - 1]);
              ret == 0 <==> && old(length) < 10000 && block.index == (last.index + 1) % 0x1_0000_0000
                            && block.prevHash == last.hash
                            && block.hash == sha(PreImage(block)) && block.hash[..2] == "00"
    {
      if length >= MAX_BLOCKS {
        return -1;
      }
      var last := LastBlock();
      if block.index != ToU32(last.value.index + 1) {
        return -1;
      }
      if block.prevHash != last.value.hash {
        return -1;
      }
      var valid := ValidateBlock(sha, block);
      if valid != 0 {
        return -1;
      }
      blocks[length] := block;
      length := length + 1;
      return 0;
    }

    /** `chain_validate` */
    method Validate() returns (ret: int)
      requires Valid()
      ensures ret == if ChainValid(sha, Contents()) then 0 else -1
      ensures ret == 0 <==> forall i | 1 <= i < length ::
                blocks[i].prevHash == blocks[i - 1].hash
                && blocks[i].hash == sha(PreImage(blocks[i])) && blocks[i].hash[..2] == "00"
    {
      var i := 1;
      while i < length
        invariant 1 <= i && (length > 0 ==> i <= length)
        invariant forall k | 1 <= k < i && k < length :: LinkValid(sha, blocks[k - 1], blocks[k])
      {
        if blocks[i].prevHash != blocks[i - 1].hash {
          assert !LinkValid(sha, Contents()[i - 1], Contents()[i]);
          return -1;
        }
        var valid := ValidateBlock(sha, blocks[i]);
        if valid != 0 {
          assert !LinkValid(sha, Contents()[i - 1], Contents()[i]);
          return -1;
        }
        i := i + 1;
      }
      forall k | 1 <= k < length
        ensures blocks[k].prevHash == blocks[k - 1].hash
        ensures blocks[k].hash == sha(PreImage(blocks[k])) && blocks[k].hash[..2] == "00"
      {
        LinkExactly(sha, blocks[k - 1], blocks[k]);
      }
      return 0;
    }

    /** `chain_replace` */
    method ReplaceWith(other: Blockchain) returns (ret: int)
      requires Valid() && other.Valid() && other.sha == sha
      requires other != this && other.blocks != blocks
      modifies this`length, blocks
      ensures Valid()
      ensures Contents() == Replace(sha, old(Contents()), other.Contents())
      ensures ret == if |other.Contents()| > old(|Contents()|) && ChainValid(sha, other.Contents()) then 0 else -1
      ensures Contents() == if ret == 0 then other.Contents() else old(Contents())
    {
      if other.length <= length {
        return -1;
      }
      var valid := other.Validate();
      if valid != 0 {
        return -1;
      }
      forall i | 0 <= i < other.length { blocks[i] := other.blocks[i]; }
      length := other.length;
      assert Contents() == other.Contents();
      return 0;
    }
  }

  datatype Op = Add(block: Block) | ReplaceBy(other: seq<Block>)

  function Apply(sha: Hasher, chain: seq<Block>, op: Op): seq<Block>
    requires |chain| > 0
  {
    match op
    case Add(block) => AddBlock(sha, chain, block)
    case ReplaceBy(other) => Replace(sha, chain, other)
  }

  function Run(sha: Hasher, chain: seq<Block>, ops: seq<Op>): (r: seq<Block>)
    requires |chain| > 0
    ensures |r| > 0
    decreases ops
  {
    if ops == [] then chain else Run(sha, Apply(sha, chain, ops[0]), ops[1..])
  }

  /** A chain fits the array of the program. */
  predicate Fits(op: Op) { op.ReplaceBy? ==> |op.other| <= MAX_BLOCKS }

  /**
   The checks made block by block add up to the full check: one operation
   keeps `chain_validate` content, changes the chain only by making it longer,
   and a successful add keeps every block there was.
   */
  lemma ApplyRefinesValidation(sha: Hasher, chain: seq<Block>, op: Op)
    requires |chain| > 0 && ChainValid(sha, chain)
    ensures ChainValid(sha, Apply(sha, chain, op))
    ensures Apply(sha, chain, op) != chain ==> |Apply(sha, chain, op)| > |chain|
    ensures op.Add? ==> chain <= Apply(sha, chain, op)
  {
  }

  /**
   Over any run of adds and replacements the chain stays valid and within
   its array and never gets shorter; and if it ends as long as it began,
   nothing happened to it in between.
   */
  lemma {:induction false} RunRefinesValidation(sha: Hasher, chain: seq<Block>, ops: seq<Op>)
    requires 0 < |chain| <= MAX_BLOCKS && ChainValid(sha, chain)
    requires forall op | op in ops :: Fits(op)
    ensures ChainValid(sha, Run(sha, chain, ops))
    ensures |chain| <= |Run(sha, chain, ops)| <= MAX_BLOCKS
    ensures |Run(sha, chain, ops)| == |chain| ==> Run(sha, chain, ops) == chain
    ensures forall k | 0 <= k <= |ops| && |Run(sha, chain, ops)| == |chain| :: Run(sha, chain, ops[..k]) == chain
    decreases ops
  {
    if ops == [] {
    } else {
      assert ops[0] in ops;
      var next := Apply(sha, chain, ops[0]);
      ApplyRefinesValidation(sha, chain, ops[0]);
      RunRefinesValidation(sha, next, ops[1..]);
      forall k | 0 <= k <= |ops| && |Run(sha, chain, ops)| == |chain|
        ensures Run(sha, chain, ops[..k]) == chain
      {
        if k > 0 {
          assert next == chain;
          assert ops[..k][1..] == ops[1..][..k - 1];
        }
      }
    }
  }

  // The longest chain wins

  function ReplaceAll(sha: Hasher, chain: seq<Block>, received: seq<seq<Block>>): seq<Block>
    decreases received
  {
    if received == [] then chain
    else ReplaceAll(sha, Replace(sha, chain, received[0]), received[1..])
  }

  /** `other` is a valid chain longer than `chain`. */
  predicate Beats(sha: Hasher, other: seq<Block>, chain: seq<Block>) {
    |other| > |chain| && ChainValid(sha, other)
  }

  /** The index of the winner: the first of the longest among the valid chains. */
  ghost predicate Wins(sha: Hasher, chain: seq<Block>, received: seq<seq<Block>>, w: nat) {
    && w < |received|
    && Beats(sha, received[w], chain)
    && (forall k | 0 <= k < |received| && ChainValid(sha, received[k]) :: |received[k]| <= |received[w]|)
    && (forall k | 0 <= k < w && ChainValid(sha, received[k]) :: |received[k]| < |received[w]|)
  }

  /**
   Whatever chains arrive in whatever order, the node ends with the first of
   the longest valid ones, and with its own chain when none is longer.
   */
  lemma {:induction false} LongestChainWins(sha: Hasher, chain: seq<Block>, received: seq<seq<Block>>)
    ensures forall w: nat | Wins(sha, chain, received, w) :: ReplaceAll(sha, chain, received) == received[w]
    ensures (exists w: nat :: Wins(sha, chain, received, w))
            <==> (exists k :: 0 <= k < |received| && Beats(sha, received[k], chain))
    ensures (forall k | 0 <= k < |received| :: !Beats(sha, received[k], chain)) ==>
              ReplaceAll(sha, chain, received) == chain
    decreases received
  {
    if received == [] {
    } else {
      var next := Replace(sha, chain, received[0]);
      var rest := received[1..];
      LongestChainWins(sha, next, rest);
      forall w: nat | Wins(sha, chain, received, w)
        ensures ReplaceAll(sha, chain, received) == received[w]
      {
        if w > 0 {
          assert Wins(sha, next, rest, w - 1) by { assert rest[w - 1] == received[w]; }
        } else {
          assert forall k | 0 <= k < |rest| :: rest[k] == received[k + 1] && !Beats(sha, rest[k], next);
        }
      }
      if k :| 0 <= k < |received| && Beats(sha, received[k], chain) {
        if v: nat :| Wins(sha, next, rest, v) {
          WinnerMovesUp(sha, chain, received, v);
        } else {
          if k > 0 { assert !Beats(sha, rest[k - 1], next); }
          assert forall j | 1 <= j < |received| :: received[j] == rest[j - 1] && !Beats(sha, rest[j - 1], next);
          assert Wins(sha, chain, received, 0);
        }
      }
      if forall k | 0 <= k < |received| :: !Beats(sha, received[k], chain) {
        assert next == chain;
        assert forall k | 0 <= k < |rest| :: rest[k] == received[k + 1];
      }
    }
  }

  lemma WinnerMovesUp(sha: Hasher, chain: seq<Block>, received: seq<seq<Block>>, v: nat)
    requires received != [] && Wins(sha, Replace(sha, chain, received[0]), received[1..], v)
    ensures Wins(sha, chain, received, v + 1)
  {
    forall k | 0 <= k < |received| && ChainValid(sha, received[k])
      ensures |received[k]| <= |received[v + 1]| && (k < v + 1 ==> |received[k]| < |received[v + 1]|)
    {
      if k > 0 { assert received[1..][k - 1] == received[k]; }
    }
  }

  /** `n` is the greatest length among the own chain and the valid received ones. */
  ghost predicate IsBestLength(sha: Hasher, chain: seq<Block>, received: seq<seq<Block>>, n: nat) {
    && |chain| <= n
    && (forall c | c in received && ChainValid(sha, c) :: |c| <= n)
    && (n == |chain| || exists c | c in received && ChainValid(sha, c) :: |c| == n)
  }

  lemma {:induction false} EndsWithBestLength(sha: Hasher, chain: seq<Block>, received: seq<seq<Block>>)
    ensures IsBestLength(sha, chain, received, |ReplaceAll(sha, chain, received)|)
    decreases received
  {
    if received != [] {
      var next := Replace(sha, chain, received[0]);
      var n := |ReplaceAll(sha, chain, received)|;
      EndsWithBestLength(sha, next, received[1..]);
      forall c | c in received && ChainValid(sha, c) ensures |c| <= n {
        if c != received[0] { assert c in received[1..]; }
      }
      if n != |next| {
        var c :| c in received[1..] && ChainValid(sha, c) && |c| == n;
        assert c in received;
      } else if next != chain {
        assert received[0] in received;
      }
    }
  }

  /** The order of arrival decides at most which of equally long chains is kept. */
  lemma OrderOfArrivalIsIrrelevant(sha: Hasher, chain: seq<Block>, received: seq<seq<Block>>, shuffled: seq<seq<Block>>)
    requires multiset(received) == multiset(shuffled)
    ensures |ReplaceAll(sha, chain, received)| == |ReplaceAll(sha, chain, shuffled)|
  {
    EndsWithBestLength(sha, chain, received);
    EndsWithBestLength(sha, chain, shuffled);
    forall c ensures c in received <==> c in shuffled {
      assert c in received <==> c in multiset(received);
    }
  }
}
