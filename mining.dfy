// The proof-of-work search (blockchain.go: Block.mine).
module Mining {
  import opened Blocks

  /** The hash `b` would get with nonce `k`. */
  function HashAt(h: Hasher, b: Block, k: nat): string
  {
    CalculateHash(h, b.(pow := k))
  }

  /** The search ends on `b` exactly when its stored hash already meets the
    * target or some nonce above the current one yields a hash that does; on
    * any other block the source loops for ever. */
  ghost predicate CanMine(h: Hasher, b: Block, difficulty: nat)
  {
    MeetsTarget(b.hash, difficulty) ||
    exists k: nat :: k > b.pow && MeetsTarget(HashAt(h, b, k), difficulty)
  }

  /** `mine` on a block value: while the stored hash misses the target, bump
    * the nonce and re-hash. The nonce is bumped before hashing, so the
    * starting nonce itself is never hashed, and a block whose stored hash
    * already meets the target (always so at difficulty 0) comes back as it
    * went in. A negative difficulty makes `strings.Repeat` panic. */
  method Mine(h: Hasher, b: Block, difficulty: int) returns (r: Block)
    requires difficulty >= 0
    requires CanMine(h, b, difficulty)
    ensures r.data == b.data && r.previousHash == b.previousHash && r.timestamp == b.timestamp
    ensures MeetsTarget(r.hash, difficulty)
    ensures MeetsTarget(b.hash, difficulty) ==> r == b
    ensures !MeetsTarget(b.hash, difficulty) ==> r.pow > b.pow && r.hash == CalculateHash(h, r)
    ensures forall k: nat :: b.pow < k < r.pow ==> !MeetsTarget(HashAt(h, b, k), difficulty)
  {
    var pow, hash := b.pow, b.hash;
    ghost var bound: nat := pow;
    if !MeetsTarget(hash, difficulty) {
      bound :| bound > b.pow && MeetsTarget(HashAt(h, b, bound), difficulty);
    }
    while !MeetsTarget(hash, difficulty)
      invariant b.pow <= pow <= bound
      invariant pow == b.pow ==> hash == b.hash
      invariant pow > b.pow ==> hash == HashAt(h, b, pow)
      invariant pow == bound ==> MeetsTarget(hash, difficulty)
      invariant forall k: nat :: b.pow < k < pow ==> !MeetsTarget(HashAt(h, b, k), difficulty)
      decreases bound - pow
    {
      pow := pow + 1;
      hash := HashAt(h, b, pow);
    }
    r := b.(pow := pow, hash := hash);
  }
}
