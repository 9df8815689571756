// What a valid block and a valid chain are
// (blockchain.go: Blockchain.validateBlock and Blockchain.isValid).
module Validation {
  import opened Blocks

  /** A block is valid after `expectedPrev` when its stored hash is its
    * recomputed hash and it links to `expectedPrev`. The difficulty target
    * is not part of it. */
  predicate BlockValid(h: Hasher, b: Block, expectedPrev: string)
  {
    b.hash == CalculateHash(h, b) && b.previousHash == expectedPrev
  }

  /** Every block after the first links to its predecessor's stored hash. */
  predicate Linked(c: seq<Block>)
  {
    forall i :: 1 <= i < |c| ==> c[i].previousHash == c[i - 1].hash
  }

  /** Every block after the first is valid after its predecessor. The first
    * (genesis) block is never re-hashed. */
  predicate ChainValid(h: Hasher, c: seq<Block>)
  {
    forall i :: 1 <= i < |c| ==> BlockValid(h, c[i], c[i - 1].hash)
  }

  /** A valid chain is linked. */
  lemma ValidIsLinked(h: Hasher, c: seq<Block>)
    requires ChainValid(h, c)
    ensures Linked(c)
  {
  }

  /** Appending one block to a non-empty chain gives a valid chain exactly
    * when the chain was valid and the new block is valid after its tail. */
  lemma ChainValidAppend(h: Hasher, c: seq<Block>, b: Block)
    requires |c| >= 1
    ensures ChainValid(h, c + [b]) <==> ChainValid(h, c) && BlockValid(h, b, c[|c| - 1].hash)
  {
    var d := c + [b];
    if ChainValid(h, d) {
      forall i | 1 <= i < |c|
        ensures BlockValid(h, c[i], c[i - 1].hash)
      {
        assert d[i] == c[i] && d[i - 1] == c[i - 1];
      }
      assert d[|c|] == b && d[|c| - 1] == c[|c| - 1];
    }
  }

  /** The genesis block enters validity only through its stored hash: any
    * first block with the same stored hash gives the same verdict, and a
    * chain holding the genesis block alone is valid. */
  lemma GenesisNeverRehashed(h: Hasher, c: seq<Block>, g: Block)
    requires |c| >= 1 && g.hash == c[0].hash
    ensures ChainValid(h, c) <==> ChainValid(h, [g] + c[1..])
    ensures ChainValid(h, [g])
  {
    var d := [g] + c[1..];
    assert forall i :: 1 <= i < |c| ==> d[i] == c[i];
    assert d[0].hash == c[0].hash;
  }

  /** A block appended at difficulty 0 keeps the empty hash it was built
    * with; a digest that never yields "" then disagrees with it, so no chain
    * holding such a block after its genesis is valid. */
  lemma EmptyHashBreaksValidity(h: Hasher, c: seq<Block>, i: nat)
    requires NeverEmpty(h)
    requires 1 <= i < |c| && c[i].hash == ""
    ensures !ChainValid(h, c)
  {
    assert CalculateHash(h, c[i]) != "";
    assert !BlockValid(h, c[i], c[i - 1].hash);
  }
}
