// The ledger: a chain of blocks that only grows at the tail, plus the
// difficulty every appended block is mined to (blockchain.go: type
// Blockchain, CreateBlockchain, addBlock, validateBlock, isValid).
module Ledger {
  import opened Blocks
  import opened Mining
  import opened Validation

  class Blockchain {
    /** The content digest every block of this ledger is hashed with. */
    const digest: Hasher
    /** The genesis block, as built at creation; never changed afterwards. */
    const genesisBlock: Block
    /** Required count of leading '0' characters; only ever set at creation. */
    const difficulty: int
    var chain: seq<Block>

    /** What every ledger built by creation and appends satisfies. */
    ghost predicate Valid()
      reads this
    {
      |chain| >= 1 &&
      chain[0] == genesisBlock &&
      genesisBlock == Block(NoData, "0", "", genesisBlock.timestamp, 0) &&
      Linked(chain) &&
      (forall i :: 1 <= i < |chain| ==> chain[i].data.Transfer?) &&
      (difficulty < 0 ==> |chain| == 1) &&
      (difficulty >= 0 ==> forall i :: 1 <= i < |chain| ==> MeetsTarget(chain[i].hash, difficulty)) &&
      (difficulty == 0 ==> forall i :: 1 <= i < |chain| ==> chain[i].hash == "" && chain[i].pow == 0) &&
      (difficulty >= 1 ==> ChainValid(digest, chain))
    }

    /** The most recently appended block (the genesis block if none). */
    function Tail(): Block
      reads this
      requires |chain| >= 1
    {
      chain[|chain| - 1]
    }

    /** The unmined block `addBlock` builds: linked to the tail, nonce 0,
      * empty stored hash. */
    function Candidate(from: string, to: string, amount: real, now: Timestamp): Block
      reads this
      requires |chain| >= 1
    {
      Block(Transfer(from, to, amount), "", Tail().hash, now, 0)
    }

    /** `CreateBlockchain(difficulty)`: a one-block chain holding the unmined
      * genesis block, whose hash is the literal "0"; `now` is the clock
      * reading the source takes. */
    constructor CreateBlockchain(digest: Hasher, difficulty: int, now: Timestamp)
      ensures Valid()
      ensures this.digest == digest && this.difficulty == difficulty
      ensures genesisBlock == Block(NoData, "0", "", now, 0)
      ensures chain == [genesisBlock]
    {
      this.digest := digest;
      this.difficulty := difficulty;
      genesisBlock := Block(NoData, "0", "", now, 0);
      chain := [Block(NoData, "0", "", now, 0)];
    }

    /** `addBlock(from, to, amount)`: build the candidate after the tail,
      * mine it and append it. The search must end, which is what the second
      * precondition says; a negative difficulty panics in the source. */
    method AddBlock(from: string, to: string, amount: real, now: Timestamp)
      requires Valid()
      requires difficulty >= 0
      requires CanMine(digest, Candidate(from, to, amount, now), difficulty)
      modifies this
      ensures Valid()
      ensures |chain| == |old(chain)| + 1 && chain[..|old(chain)|] == old(chain)
      ensures Tail().previousHash == old(Tail()).hash
      ensures Tail().data == Transfer(from, to, amount) && Tail().timestamp == now
      ensures MeetsTarget(Tail().hash, difficulty)
      ensures difficulty >= 1 ==> Tail().pow >= 1 && Tail().hash == CalculateHash(digest, Tail())
      ensures forall k: nat :: 0 < k < Tail().pow ==> !MeetsTarget(HashAt(digest, Tail(), k), difficulty)
      ensures difficulty == 0 ==> Tail().hash == "" && Tail().pow == 0
      ensures difficulty >= 1 && old(ChainValid(digest, chain)) ==> ChainValid(digest, chain)
      ensures difficulty == 0 && NeverEmpty(digest) ==> !ChainValid(digest, chain)
    {
      var candidate := Candidate(from, to, amount, now);
      TargetEdgeCases("", difficulty);
      var mined := Mine(digest, candidate, difficulty);
      forall k: nat | 0 < k < mined.pow
        ensures HashAt(digest, mined, k) == HashAt(digest, candidate, k)
      {
      }
      ghost var before := chain;
      ChainValidAppend(digest, chain, mined);
      chain := chain + [mined];
      assert chain[..|before|] == before;
      if difficulty == 0 && NeverEmpty(digest) {
        EmptyHashBreaksValidity(digest, chain, |chain| - 1);
      }
    }

    /** `validateBlock(block)`: is `block` valid as the next block after the
      * tail? Changes nothing. Against a valid chain, this is exactly whether
      * appending `block` would keep the chain valid. */
    method ValidateBlock(block: Block) returns (ok: bool)
      requires |chain| >= 1
      ensures ok <==> block.hash == CalculateHash(digest, block) && block.previousHash == Tail().hash
      ensures ChainValid(digest, chain) ==> (ok <==> ChainValid(digest, chain + [block]))
    {
      var lastBlock := chain[|chain| - 1];
      ok := block.hash == CalculateHash(digest, block) && block.previousHash == lastBlock.hash;
      ChainValidAppend(digest, chain, block);
    }

    /** `isValid()`: scan every adjacent pair, stopping at the first block
      * whose stored hash or link is wrong. Changes nothing. It applies to any
      * non-empty chain, including one whose blocks were edited in place. */
    method IsValid() returns (ok: bool)
      requires |chain| >= 1
      ensures ok <==> ChainValid(digest, chain)
      ensures Valid() && difficulty >= 1 ==> ok
    {
      var i := 0;
      while i < |chain| - 1
        invariant 0 <= i <= |chain| - 1
        invariant forall j :: 1 <= j <= i ==> BlockValid(digest, chain[j], chain[j - 1].hash)
      {
        var previousBlock := chain[i];
        var currentBlock := chain[i + 1];
        if currentBlock.hash != CalculateHash(digest, currentBlock) || currentBlock.previousHash != previousBlock.hash {
          return false;
        }
        i := i + 1;
      }
      return true;
    }
  }
}
