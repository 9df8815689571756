// Records of the ledger, the content hash over them, and the
// leading-zeros target that proof-of-work has to meet
// (blockchain.go: type Block, Block.calculateHash, and the
// strings.HasPrefix / strings.Repeat test inside Block.mine).
module Blocks {

  /** The payload of a block. The genesis block carries no map at all
    * (it marshals to JSON `null`); every appended block carries exactly the
    * three fields `from`, `to` and `amount`. The amount is a float64 in the
    * source; no arithmetic is ever done on it, so it is kept as a `real`. */
  datatype Payload = NoData | Transfer(from: string, to: string, amount: real)

  /** The text of a block's creation time (`time.Time.String()`), opaque here. */
  type Timestamp = string

  /** One record. A Go struct value: it is copied into the chain, never shared. */
  datatype Block = Block(
    data: Payload,
    hash: string,
    previousHash: string,
    timestamp: Timestamp,
    pow: nat)

  /** The content digest: SHA-256 over previous hash, JSON of the payload,
    * timestamp text and decimal nonce, rendered as lower-case hex. Only its
    * determinism matters to the ledger, so it is any total function of those
    * four inputs, chosen once by whoever builds the ledger. */
  type Hasher = (string, Payload, Timestamp, nat) -> string

  /** A digest that never yields the empty string (true of SHA-256 in hex,
    * whose output always has 64 characters). */
  ghost predicate NeverEmpty(h: Hasher)
  {
    forall prev, data, ts, pow :: h(prev, data, ts, pow) != ""
  }

  /** The hash a block ought to carry; its stored `hash` field plays no part. */
  function CalculateHash(h: Hasher, b: Block): string
  {
    h(b.previousHash, b.data, b.timestamp, b.pow)
  }

  /** The block's hash is a function of its four hashed fields alone: two
    * blocks that agree on them agree on their hash, whatever else differs. */
  lemma HashOfHashedFieldsOnly(h: Hasher, b: Block, c: Block)
    requires b.previousHash == c.previousHash && b.data == c.data
    requires b.timestamp == c.timestamp && b.pow == c.pow
    ensures CalculateHash(h, b) == CalculateHash(h, c)
  {
  }

  /** `strings.Repeat("0", n)`. */
  function Zeros(n: nat): (r: string)
    ensures |r| == n
    ensures forall i :: 0 <= i < n ==> r[i] == '0'
  {
    if n == 0 then "" else Zeros(n - 1) + "0"
  }

  /** `strings.HasPrefix(s, p)`. */
  predicate HasPrefix(s: string, p: string)
  {
    |p| <= |s| && s[..|p|] == p
  }

  /** The proof-of-work target: `hash` starts with `difficulty` '0' characters. */
  predicate MeetsTarget(hash: string, difficulty: nat)
  {
    HasPrefix(hash, Zeros(difficulty))
  }

  /** Number of '0' characters at the head of `s`. */
  function LeadingZeros(s: string): (n: nat)
    ensures n <= |s|
  {
    if s != [] && s[0] == '0' then 1 + LeadingZeros(s[1..]) else 0
  }

  /** The prefix test of the source is the same as counting leading zeros:
    * a hash meets difficulty `d` exactly when it has at least `d` of them. */
  lemma {:induction false} MeetsTargetIffLeadingZeros(s: string, d: nat)
    ensures MeetsTarget(s, d) <==> d <= LeadingZeros(s)
  {
    if d == 0 {
      assert s[..0] == Zeros(0);
    } else if s == [] {
    } else {
      MeetsTargetIffLeadingZeros(s[1..], d - 1);
      var z := Zeros(d);
      assert z == Zeros(d - 1) + "0";
      if MeetsTarget(s, d) {
        assert s[0] == z[0] == '0';
        assert s[1..][..d - 1] == s[..d][1..];
        assert Zeros(d - 1) == z[1..];
        assert MeetsTarget(s[1..], d - 1);
      }
      if d <= LeadingZeros(s) {
        assert s[0] == '0';
        assert MeetsTarget(s[1..], d - 1);
        assert |z| <= |s|;
        forall i | 0 <= i < d
          ensures s[..d][i] == z[i]
        {
          if i > 0 {
            assert s[..d][i] == s[1..][..d - 1][i - 1];
          }
        }
        assert s[..d] == z;
      }
    }
  }

  /** The two edge cases the mining loop depends on: every hash meets
    * difficulty 0 (`HasPrefix(x, "")` holds), and the empty hash of a fresh
    * block meets no positive difficulty. */
  lemma TargetEdgeCases(s: string, d: nat)
    ensures MeetsTarget(s, 0)
    ensures MeetsTarget("", d) <==> d == 0
  {
  }
}
