# Hash-linked ledger with proof-of-work — a Dafny model

This project models the ledger of `blockchain.go`: an in-memory chain of
blocks, each linked to its predecessor's hash, where every appended block is
mined by a nonce search until its hash starts with `difficulty` `'0'`
characters, and where the whole chain can be re-checked for hash and link
mismatches.

- `blocks.dfy` (module `Blocks`): the block record, its payload, the content
  hash (`calculateHash`), and the leading-zeros target tested by `mine`
  (`strings.HasPrefix(hash, strings.Repeat("0", difficulty))`).
- `mining.dfy` (module `Mining`): `mine`, a loop that bumps the nonce and
  re-hashes until the target is met, proved to return the block unchanged
  if its hash already meets the target, otherwise the block with the least
  nonce above the starting one whose hash does.
- `validation.dfy` (module `Validation`): what a valid block and a valid
  chain are, and how validity behaves under append.
- `ledger.dfy` (module `Ledger`): class `Blockchain` with `CreateBlockchain`,
  `AddBlock`, `ValidateBlock` and `IsValid`, and the invariant every ledger
  built by creation and appends keeps: non-empty, genesis first and
  unchanged, every block linked to its predecessor, every appended block
  meeting the target, and the chain valid whenever the difficulty is at
  least 1.

The digest (SHA-256 over previous hash, JSON payload, timestamp text and
decimal nonce, printed as hex) is a parameter of type `Hasher`: any total,
deterministic function of those four inputs, fixed when the ledger is
created. Being a Dafny function, it reads no state and changes nothing.
The clock reading (`time.Now()`) is a `Timestamp` argument.

Behaviour kept as the code has it:
- The nonce is bumped before each hash, so nonce 0 is never hashed and a
  block mined at difficulty 1 or more has `pow >= 1`.
- At difficulty 0 the loop body never runs: an appended block keeps the empty
  hash and nonce 0. A digest that never yields "" then disagrees with it, so
  such a chain is not valid once a block has been appended.
- The genesis block has hash `"0"`, an empty previous hash, nonce 0 and no
  payload; it is never mined and never re-hashed by validation.
- Neither `validateBlock` nor `isValid` checks the difficulty target.
- `chain` is a field any code in the package can edit, as in Go, so
  `ValidateBlock` and `IsValid` apply to any non-empty chain, not only to
  one that keeps the ledger invariant; on an edited chain `IsValid` returns
  false exactly when some block's stored hash or link is wrong.

## Model

| member | source | states |
|---|---|---|
| Blocks.HashOfHashedFieldsOnly | blockchain.go:29-34 | the block hash depends only on previous hash, payload, timestamp and nonce: blocks agreeing on these hash alike, whatever their stored hash |
| Blocks.Zeros | blockchain.go:37 | `strings.Repeat("0", n)` has length n and every character is '0' |
| Blocks.MeetsTargetIffLeadingZeros | blockchain.go:37 | the `HasPrefix` test passes exactly when the hash has at least `difficulty` leading '0' characters |
| Blocks.TargetEdgeCases | blockchain.go:37 | every hash meets difficulty 0, and the empty hash of a fresh block meets a difficulty iff it is 0 |
| Mining.Mine | blockchain.go:36-41 | on exit the hash meets the target; payload, previous hash and timestamp are untouched; a block already meeting the target (always at difficulty 0) comes back unchanged; otherwise the nonce grew, the hash is the block's own recomputed hash, and every nonce strictly between the start and the result misses the target |
| Validation.ValidIsLinked | blockchain.go:76-85 | a chain that passes validation has every block linked to its predecessor's hash |
| Validation.ChainValidAppend | blockchain.go:76-85 | appending a block keeps a non-empty chain valid iff the chain was valid and the block's hash and link are right relative to the old tail |
| Validation.GenesisNeverRehashed | blockchain.go:77-79 | validity depends on the first block only through its stored hash, and a genesis-only chain is valid |
| Validation.EmptyHashBreaksValidity | blockchain.go:36-41 | with a digest that never yields "", a chain holding an unmined block with empty hash after its genesis is not valid |
| Ledger.Blockchain.CreateBlockchain | blockchain.go:43-53 | a one-block chain holding the genesis block (hash "0", empty previous hash, nonce 0, no payload), storing the given difficulty, satisfying the ledger invariant |
| Ledger.Blockchain.AddBlock | blockchain.go:55-69 | the chain grows by exactly one block and earlier blocks are unchanged; the new tail links to the old tail's hash, carries exactly from/to/amount and meets the target; at difficulty at least 1 it has nonce at least 1, the least such nonce, and its own recomputed hash, and a valid chain stays valid; at difficulty 0 it keeps hash "" and nonce 0, and with a digest that never yields "" the chain is no longer valid |
| Ledger.Blockchain.ValidateBlock | blockchain.go:71-74 | on any non-empty chain, true iff the block's stored hash is its recomputed hash and it links to the tail's hash; on a valid chain, true iff appending it keeps the chain valid; nothing changes |
| Ledger.Blockchain.IsValid | blockchain.go:76-85 | on any non-empty chain, including one edited in place, true iff every block after genesis has its recomputed hash and links to its predecessor; always true on a ledger built by creation and appends at difficulty at least 1; nothing changes |

## Left out

- SHA-256, `%x` hex formatting and `json.Marshal` of the payload: replaced by the `Hasher` parameter; digest contents, JSON key order and collision resistance are not modelled, so no tamper-detection property is claimed.
- `time.Now()` and `time.Time.String()`: the timestamp text is an argument.
- The float64 amount is a `real`; it is only stored and hashed, never computed with.
- Mining.Mine: the source loops for ever when no nonce meets the target; the model requires that the search ends (`CanMine`), exactly the condition under which the source's loop exits. 64-bit wrap-around of the nonce is not modelled (it is a `nat`).
- Mining.Mine: the source mutates a local `Block` through a pointer receiver; the model takes and returns the block value, which is equivalent because the block is copied into the chain and never shared.
- A negative difficulty makes `strings.Repeat` panic inside `mine`; `Mine` and `AddBlock` require a non-negative difficulty, and a ledger created with a negative one keeps its genesis block alone.
- `difficulty` and the redundant `genesisBlock` copy are constants of the class, since nothing assigns them after creation.
- `printBlockchain` (output only) and `main` (terminal input, amount cleaning, float parsing, the endless loop) are not part of this model.
