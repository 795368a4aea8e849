# gochain ledger core in Dafny

This project models the ledger logic of gochain, a small blockchain node written in Go,
and proves properties of that model:

- a `Block` is mined by scanning its nonce upward until the hex SHA-256 digest of
  `Data + PrevHash + string(Timestamp) + string(Nonce)` starts with `"0000"`;
- `Block.IsValid` recomputes the digest and compares it with the stored hash;
- a `Blockchain` starts with a fixed genesis block, grows by mining and appending, and is
  valid when every block after the genesis block links to its predecessor's hash and
  passes `Block.IsValid`;
- the generic `ProofOfWork` scans nonces until a digest starts with `difficulty` NUL
  characters;
- a `Node` keeps a peer list without duplicates, adopts any fetched peer chain that is
  strictly longer than its own (`Sync`), and handles `POST /block` and `POST /register`.

Modules follow the Go files: `Blocks` (blockchain/block.go), `Ledger`
(blockchain/blockchain.go), `Proof` (blockchain/proof.go), `Reconciliation` (the adoption
rule of `Sync`), and `Network` (network/node.go and the two handlers of network/server.go).
`Runes` models Go's integer-to-string conversion. `Digest` models the SHA-256 + hex library.
`Wrappers` holds `Option`.

Modelling choices:

- **Digest library.** SHA-256 followed by `hex.EncodeToString` is foreign code. It is a
  parameter `digest: DigestFn`. The subset type `DigestFn` holds the only two facts
  assumed about the library: every output has 64 characters, and each character is in
  `0-9a-f`.
- **`string(n)` on an integer.** Go yields one code point, not decimal digits.
  `Runes.RuneStr` models this exactly: a Unicode scalar value becomes that character, and
  any other integer becomes U+FFFD. So every real Unix timestamp encodes to U+FFFD, and
  genesis timestamp 0 encodes to `"\0"`.
- **Clock.** `time.Now().Unix()` is the parameter `now`.
- **Mining termination.** The Go loops have no bound. `Mine` (the loop of `MineBlock`),
  `MineBlock`, `NewBlock` and `AddBlock` take a ghost nonce `w` that hits the target, which makes the loop terminate
  and yields minimality of the nonce found. `ProofOfWork` takes a `fuel` bound instead:
  its loop body could never run under a witness, because difficulty 0 succeeds at once
  and no witness exists for difficulty 1 to 64 (`NoProofAtPositiveDifficulty`).
- **Blocks are objects.** The chain holds `seq<Block>`, like the Go `[]*Block`.
- **Fetches in `Sync`.** They are an input `seq<Option<seq<Block>>>` aligned with `Peers`.
  `None` stands for a failed `http.Get` or a failed decode.
- **Request bodies.** A decoded body is an `Option`, and each handler returns its HTTP
  status code.

Where the documentation and the code disagree, the model follows the code:

- `Block.IsValid` does not check the `"0000"` prefix, despite its doc comment.
  Chain validity does not check it either, because `Ledger.ValidChain` only combines
  `LinkedAt` and `Block.IsValid` (`IsValidIgnoresPrefix`).
- The target prefix of `ProofOfWork` is NUL characters, not `'0'` digits.

## Model

Some specification functions have no row of their own. The rows listed here state what
each means:
- `Blocks.Block.String`: `PreimageAmbiguous`, `StringIgnoresSplit` and `TimestampIgnored`.
- `Blocks.Block.IsValid`: `IsValidIsCalculateHash`, `IsValidIgnoresPrefix` and `GenesisNeverValid`.
- `Ledger.ValidChain`: `Ledger.Blockchain.IsValid`, `ShortChainsValid`, `GenesisChainValid`
  and `ValidChainAppend`.
- `Reconciliation.Reconcile` and `Adopt`: `ReconcileIsLongest`, `ReplacedOnlyByLonger`,
  `SinglePeer` and `Network.Node.Sync`.

| member | source | states |
|---|---|---|
| `Runes.RuneStr` | blockchain/block.go:73 | The encoding is one character, and that character's code is `n` exactly when `n` is a Unicode scalar value. |
| `Runes.RuneStrInjective` | blockchain/block.go:73 | Distinct scalar values encode to distinct strings. |
| `Runes.NonScalarsCollide` | blockchain/block.go:73 | Every non-scalar integer (negative, surrogate, above 0x10FFFF) encodes to U+FFFD, the same string as 0xD800. |
| `Runes.ZeroIsNul` | blockchain/block.go:83 | The genesis timestamp 0 encodes to the NUL character. |
| `Proof.CalculateHash` | blockchain/proof.go:46-49 | The digest of `data + string(nonce)` is a 64-character lower-case hex string. |
| `Proof.ProofOfWork` | blockchain/proof.go:19-35 | A returned nonce is the least one at or above 0 that meets the target. Its hash is `CalculateHash(data, nonce)` and starts with `difficulty` NULs. Difficulty 0 returns nonce 0 at once. For difficulty 1 to 64 no nonce is ever found. `None` means no nonce below `fuel` meets the target. |
| `Proof.NoProofAtPositiveDifficulty` | blockchain/proof.go:22-29 | For difficulty 1 to 64 no nonce meets the NUL target, because a hex digest contains no NUL. |
| `Blocks.Block.constructor` | blockchain/block.go:28-32 | A block literal has exactly the given field values. |
| `Blocks.Block.Genesis` | blockchain/block.go:81-89 | The genesis block has timestamp 0, data "Genesis Block", an empty previous hash, hash "0000000000000000" and nonce 0. |
| `Blocks.Block.NewBlock` | blockchain/block.go:27-35 | The new block is fresh and keeps the given data, previous hash and timestamp. Its nonce is the least one from 0 that hits the target. Its hash is 64 characters, starts with "0000", and `IsValid` holds. |
| `Blocks.Mine` | blockchain/block.go:41-52 | The scan stops at the least nonce at or above the start whose hash starts with "0000". It returns that nonce and the hash computed for it. |
| `Blocks.Block.MineBlock` | blockchain/block.go:39-53 | Only `Nonce` and `Hash` change. The final nonce is the least one at or above the starting nonce that hits the target. The hash starts with "0000", and `IsValid` holds. |
| `Blocks.MiningSatisfiable` | blockchain/block.go:41-52 | For any pre-image and nonce, some digest function that meets the library's assumptions gives that nonce a hash starting with "0000". So the witness that mining requires can be met. |
| `Blocks.IsValidIsCalculateHash` | blockchain/block.go:60-65 | `IsValid` holds exactly when the stored hash equals `CalculateHash(String(), Nonce)`. |
| `Blocks.IsValidIgnoresPrefix` | blockchain/block.go:55-65 | A block whose hex hash lacks the "0000" prefix passes `IsValid` under some digest function that meets the library's assumptions, so `IsValid` does not imply the prefix. |
| `Blocks.PreimageAmbiguous` | blockchain/block.go:72-74 | The pre-image does not separate data from previous hash: ("ab", "c") and ("a", "bc") hash the same. |
| `Blocks.StringIgnoresSplit` | blockchain/block.go:72-74 | Two blocks whose `Data + PrevHash` concatenate alike, with equal timestamps, have the same `String()`, so they hash alike for every nonce. |
| `Blocks.TimestampIgnored` | blockchain/block.go:72-74 | Two timestamps of 0x110000 or more give the same pre-image. This covers every Unix time after 13 January 1970. |
| `Blocks.GenesisNeverValid` | blockchain/block.go:81-89 | The genesis block never passes `IsValid`, because its 16-character hash cannot equal a 64-character digest. |
| `Blocks.LeastSolutionIsSmall` | blockchain/block.go:41-52 | The least nonce from 0 that hits the target is a scalar value or 0xD800. So mining from 0 finishes below 0x110000 or never. |
| `Ledger.Blockchain.constructor` | blockchain/blockchain.go:14-18 | A new chain holds exactly one fresh genesis block. |
| `Ledger.Blockchain.AddBlock` | blockchain/blockchain.go:22-29 | An empty chain is excluded, because Go indexes the tail. The length grows by one, and earlier blocks and their hashes are unchanged. The new block is fresh, carries `data` and `now`, links to the old tail's hash, and is mined and valid. Its nonce is the least one from 0 that hits the target, as `NewBlock` mines it. A valid chain stays valid. |
| `Ledger.Blockchain.IsValid` | blockchain/blockchain.go:34-47 | The result is true exactly when every index from 1 links to its predecessor and passes `Block.IsValid`. |
| `Ledger.ShortChainsValid` | blockchain/blockchain.go:34-47 | Chains of length 0 or 1 are valid. |
| `Ledger.GenesisChainValid` | blockchain/blockchain.go:35 | The genesis-only chain is valid although its block fails `Block.IsValid`, because index 0 is never checked. |
| `Ledger.ValidChainAppend` | blockchain/blockchain.go:34-47 | A chain with one block appended is valid exactly when the old chain is valid and the new block links to the tail and passes `Block.IsValid`. |
| `Ledger.LinkedAppend` | network/server.go:117-118 | A chain with one block appended is linked exactly when the old chain is linked and the block extends its tail, or the chain is empty. |
| `Ledger.LinkedButInvalid` | network/server.go:117-118 | A block that extends a linked chain but fails `Block.IsValid` keeps the chain linked and makes it invalid. |
| `Reconciliation.ReconcileIsLongest` | network/node.go:48-69 | After `Sync`, the chain is at least as long as the local chain and as every successful candidate. It is the local chain or one of the candidates, verbatim, so its length is the maximum. |
| `Reconciliation.ReplacedOnlyByLonger` | network/node.go:65-66 | The local chain is replaced only by a strictly longer one. |
| `Reconciliation.SinglePeer` | network/node.go:50-66 | With one peer, a strictly longer candidate is adopted. A tie, a shorter chain or a failed fetch keeps the local chain. |
| `Network.Node.constructor` | network/node.go:19-24 | A new node has a genesis-only chain and no peers. |
| `Network.Node.AddPeer` | network/node.go:28-41 | A listed peer leaves `Peers` unchanged. A new peer is appended at the end. "No duplicates" is preserved. |
| `Network.Node.Sync` | network/node.go:44-70 | The chain becomes `Reconcile` of the old chain and the fetch results in peer order. It never shrinks, no validity check is made, and the peers are unchanged. |
| `Network.Node.HandleReceiveBlock` | network/server.go:99-127 | An undecodable body returns 400 and leaves the chain unchanged. A block that extends the chain is appended verbatim with 201, with no proof-of-work or digest check. Any other block returns 400 and leaves the chain unchanged. Linkage is preserved. |
| `Network.Node.HandleRegisterNode` | network/server.go:134-165 | An undecodable body or an empty address returns 400. A listed address returns 409. In both cases the peers are unchanged. A new address is appended with 201. "No duplicates" is preserved. |

## Left out

- SHA-256 and hex encoding: foreign library code. The model uses a digest parameter, and assumes only the length and alphabet of its output.
- Tamper detection by `IsValid` (an altered payload makes the chain invalid): it needs collision resistance of SHA-256, which the model does not assume, so no lemma claims it.
- `time.Now()`: nondeterministic; the timestamp is a parameter.
- Mutexes (`Mu`, `nu`), goroutines and `sync.WaitGroup`: concurrency; the model is sequential.
- `StartServer`, `logMiddleware`, `handleGetBlockchain`, `handleGetPeers` and every `log.*`/`fmt.*` call: transport, JSON encoding and logging.
- The response texts written by the handlers: only the status code is modelled.
- The `http.Get`, JSON decode and `resp.Body.Close` in `Sync`: network I/O. Their outcome per peer is the `fetched` input.
- main.go (flag parsing, `registerPeer`): process startup and network I/O.
- `Node.Serialize` and `PrintPeers`: formatting and printing only.
- utils/utils.go `Hash`: an unused wrapper over SHA-256.
- Blocks.Block.MineBlock: termination rests on a ghost witness nonce, because the Go loop has no bound. The scan runs in `Mine` on local values, and `MineBlock` stores the nonce and hash once it stops. This leaves the same final state as Go's in-place updates, but the intermediate field values are not modelled.
- Blocks.Block.NewBlock: needs the same ghost witness as `MineBlock`.
- Ledger.Blockchain.AddBlock: needs the same ghost witness as `MineBlock`.
- Proof.ProofOfWork: the unbounded scan is cut off after `fuel` nonces, and `None` stands for "still searching". At difficulty 1 to 64 the Go loop never ends.
- Go's 64-bit `int`: `Nonce` and `Timestamp` are unbounded integers, so the wrap-around of `Nonce++` at 2^63-1 is not modelled. `LeastSolutionIsSmall` shows that mining from 0 ends below 0x110000 or never.
- Go strings are byte sequences and the digest is taken over their UTF-8 bytes. The model's strings are sequences of code points, with the digest taken over those. Slicing a hex hash by bytes and by characters agree, because hex is ASCII.
- Proof.ProofOfWork: Go assumes `0 <= difficulty <= 64` without checking it. A negative difficulty makes `make([]rune, difficulty)` panic, and one above 64 makes the slice `hash[:difficulty]` panic. The model makes this range a precondition instead of modelling the panic.
- Ledger.Blockchain.AddBlock: Go reads the chain's tail without checking, so an empty chain panics. The model makes a non-empty chain a precondition instead of modelling the panic. Every chain built by the constructor is non-empty.
- Nil blocks in a fetched chain: Go decodes a peer's chain into `[]*Block`, so a JSON `null` element becomes a nil pointer. `Sync` adopts such a chain on length alone. If its last element is null, the next `POST /block` with a decodable body dereferences nil in the link test. `Blockchain.IsValid` dereferences a null element when its loop reaches it, that is, unless an earlier index already failed. `AddBlock` dereferences a null tail. A `seq<Block>` cannot hold nil, so these states and their panics are not modelled.
- Network.Node.Sync: the fetch results are paired with `Peers` by position, so `fetched` must have one entry per peer.
