# Hash-linked ledger

A model of the `blockchain` Go package: a ledger made of a genesis block
followed by mined blocks. Each block records transaction data, the hash of the
block before it, a timestamp, a proof-of-work nonce (`pow`) and its own
SHA-256 hash. The package has five operations:

- `calculateHash` hashes a block's content;
- `mine` searches nonces until the hash starts with `difficulty` zeros;
- `CreateBlockchain` seeds the genesis block;
- `AddTransaction` appends a mined block;
- `IsValid` re-checks every block's hash and link.

The project has three modules:

- `GoStd` (`go_std.dfy`) states exactly the three small library calls the package
  uses: `strings.HasPrefix`, `strings.Repeat` and `strconv.Itoa`.
- `Blocks` (`block.dfy`) holds the `Block` datatype, `CalculateHash` and the mining
  loop `Mine`.
- `Ledger` (`blockchain.dfy`) holds the `Blockchain` class with the fields
  `genesisBlock`, `chain` and `difficulty`. It also holds the validity predicate
  `ChainValid` and the lemmas about appending and tampering.

SHA-256 with its hex formatting, JSON marshalling and `time.Time.String` are
library code outside the package. They are the three fields of a `Primitives`
value that each operation receives. The digest function returns a `Digest`:
64 lower-case hexadecimal characters. Timestamps come in as parameters in place
of `time.Now()`.

Mining follows the code exactly. The loop tests the stored hash before the
first attempt, and a new block starts with Go's zero-value hash `""`. So at
difficulty 0 the loop body never runs: no hash is computed, so the block is
appended with hash `""` and `pow` stays 0. A
consequence is proved here: at difficulty 0, `IsValid` returns false after any
`AddTransaction` (`Ledger.ZeroDifficultyRoundTrip`,
`Ledger.UnsealedAppendInvalid`). At difficulty 1 or more, every appended block
carries its own hash, and validity is preserved.

A negative difficulty makes `strings.Repeat` panic. `Mine` then returns
`Panic(...)`, and `AddTransaction` reports `Panicked` and appends nothing.

## Model

| member | source | states |
|---|---|---|
| `GoStd.Repeat` | blockchain/blockchain.go:64 | `strings.Repeat("0", d)` has length d times the length of the string repeated |
| `GoStd.HasRepeatedPrefix` | blockchain/blockchain.go:64 | `HasPrefix(s, Repeat([c], n))` holds iff s has at least n characters and the first n are all c |
| `GoStd.Itoa` | blockchain/blockchain.go:56 | `strconv.Itoa` output is non-empty and starts with '-' iff the number is negative |
| `GoStd.UtoaRoundTrip` | blockchain/blockchain.go:56 | reading the decimal digits written for a non-negative nonce gives back the nonce |
| `GoStd.ItoaRoundTrip` | blockchain/blockchain.go:56 | parsing `Itoa(n)` in the same notation gives back n, for every integer n |
| `GoStd.ItoaInjective` | blockchain/blockchain.go:56 | two different nonces are never written as the same text |
| `Blocks.HashDeterminedByContent` | blockchain/blockchain.go:54-59 | the hash depends only on previousHash, data, timestamp and pow, and not on the stored hash field |
| `Blocks.NonceInputsDistinct` | blockchain/blockchain.go:56 | two different nonces give two different hash inputs, so each mining attempt digests a new text |
| `Blocks.MeetsDifficultyMeaning` | blockchain/blockchain.go:64 | the loop's exit test holds iff the hash has at least d characters and the first d are '0' |
| `Blocks.MeetsLowerDifficulty` | blockchain/blockchain.go:62-64 | a hash that meets difficulty d also meets every lower difficulty |
| `Blocks.Mine` | blockchain/blockchain.go:63-68 | panics iff d < 0; otherwise data, previousHash and timestamp are unchanged, pow does not decrease and the final hash starts with d zeros; the block is returned unchanged iff its stored hash already met the target; if the loop ran, the hash equals `CalculateHash` of the final block; no nonce between the start and the final one met the target |
| `Ledger.TxData` | blockchain/blockchain.go:100-104 | the data map has exactly the keys from, to and amount, holding the two names and the amount |
| `Ledger.GenesisChainValid` | blockchain/blockchain.go:119-127 | a chain holding only the genesis block is valid, although recomputing the genesis hash would never give "0" |
| `Ledger.AppendValid` | blockchain/blockchain.go:119-128 | appending a block gives a valid chain iff the chain was valid and the new block is sealed (its hash is recomputable) and linked to the old tip |
| `Ledger.UnsealedAppendInvalid` | blockchain/blockchain.go:106-123 | appending a block that still has the zero-value hash "" always yields an invalid chain |
| `Ledger.TamperedHashDetected` | blockchain/blockchain.go:123 | overwriting the stored hash of any non-genesis block of a valid chain makes it invalid |
| `Ledger.TamperedLinkDetected` | blockchain/blockchain.go:123 | overwriting the previousHash of any non-genesis block of a valid chain makes it invalid |
| `Ledger.Blockchain.constructor` | blockchain/blockchain.go:74-86 | CreateBlockchain: the chain is exactly [genesisBlock]; genesis has hash "0", pow 0, empty previousHash and no data; the difficulty is stored unchanged; the chain is valid; the linkage invariant `Valid()` is established |
| `Ledger.Blockchain.AddTransaction` | blockchain/blockchain.go:99-113 | at negative difficulty it panics and nothing changes; otherwise the chain grows by one and keeps its earlier blocks; genesisBlock and difficulty are unchanged; the new block carries the transaction data and links to the old tip's hash; at difficulty 1 or more its pow is the first nonce whose hash meets the target; `Valid()`, including linkage of every block, is preserved; details below the table |
| `Ledger.Blockchain.IsValid` | blockchain/blockchain.go:119-128 | on any non-empty chain, linked or not, returns true iff every block from index 1 on has a recomputable hash and a previousHash equal to its predecessor's hash |
| `Ledger.TamperLinkThenValidate` | blockchain/blockchain.go:115-128 | overwriting the previousHash of a non-genesis block of a valid ledger in place makes IsValid return false |
| `Ledger.TamperHashThenValidate` | blockchain/blockchain.go:115-128 | overwriting the stored hash of a non-genesis block of a valid ledger in place makes IsValid return false |
| `Ledger.ZeroDifficultyRoundTrip` | blockchain/blockchain.go:106-123 | create at difficulty 0, add one transaction, validate: the result is false |
| `Ledger.PositiveDifficultyRoundTrip` | blockchain/blockchain.go:16-19 | create at difficulty 1 or more, add one transaction, validate: the result is true and the chain has two blocks |

More on `Ledger.Blockchain.AddTransaction` at difficulty 0 or more:

- the new block's hash meets the difficulty;
- at difficulty 0 the new block is the unmined block (hash "", pow 0);
- at difficulty 1 or more, its pow is at least 1 and its hash is its own
  `CalculateHash`, and the chain is valid afterwards iff it was valid before;
- at difficulty 1 or more, its pow is the first nonce that mining reaches: no
  nonce from 1 up to pow - 1 gives a hash that meets the difficulty;
- at difficulty 0 the chain is invalid afterwards.

The class invariant `Valid()` is kept by the constructor and by every
`AddTransaction`. It says that the chain is non-empty and starts with
`genesisBlock`. It also says that every block from index 1 on has a
`previousHash` equal to the hash of the block before it. This linkage holds at
every difficulty, including 0, where `ChainValid` fails on the hash check.

## Left out

- `main.go`: a demo caller that makes three calls and prints the result. It has no logic of its own.
- SHA-256, `%x` formatting, `encoding/json` and `time.Time.String` are library code. They are deterministic functions in `Primitives`, and their results are not computed. The only property used is that a digest is 64 lower-case hex characters. The error that `json.Marshal` returns is ignored by the source and is not modelled.
- Collision resistance is not assumed. So the model does not claim that editing a block's data, or reordering blocks, is detected. Only edits to the stored `hash` or `previousHash` field of a non-genesis block are proved detectable: by `ChainValid` on any sequence (`Ledger.TamperedHashDetected`, `Ledger.TamperedLinkDetected`), and by `IsValid` on a ledger edited in place (`Ledger.TamperHashThenValidate`, `Ledger.TamperLinkThenValidate`).
- `time.Now()`: clock input. Timestamps are parameters. A `Time` stands for a whole `time.Time` value, and its text form (including location and monotonic reading) comes only from `timeString`.
- The `float64` amount is carried as its 64-bit pattern (`Float64`), and nothing computes with it.
- `Blocks.Mine`: requires `Minable`, meaning that some nonce above the current one meets the target. The Go loop runs forever otherwise. Termination is only probabilistic (about 16^d attempts) and is not proved. There are no cost bounds.
- `Blocks.Mine`: `pow` is an unbounded integer. Go's `int` would wrap around after 2^63 - 1 increments, and that is not modelled.
- `Ledger.Blockchain.AddTransaction`: returns a `Completion`, because Go's panic on a negative difficulty has to be a value here. The Go method returns nothing.
- `Ledger.Blockchain`: in Go a `Blockchain` is a value. `CreateBlockchain` returns it by value and `IsValid` has a value receiver, so a copy of a ledger shares its slice's backing array with the original. The Dafny class is a reference, and copying ledgers, with the aliasing that copying causes, is not modelled.
- `Ledger.Blockchain`: the zero value `Blockchain{}` is not modelled. It has an empty chain, so `AddTransaction` and `IsValid` would panic on indexing. Only `CreateBlockchain` builds a ledger here, and it keeps the chain non-empty.
- The genesis block's data is a nil map in Go and `map[]` here. Its hash is never recomputed, so nothing observes the difference.
- Concurrent use is not modelled: the source performs no locking.
- Go strings are byte sequences, and Dafny strings here are sequences of Unicode characters. So `from` and `to` holding invalid UTF-8 cannot be expressed, and `HasPrefix` and concatenation work on characters, not bytes. Nothing in the ledger depends on this: digests are ASCII hex, and JSON output is valid UTF-8.
- `Primitives` is an argument of each call, not a fixed part of the ledger. In Go the same SHA-256, JSON encoder and time formatting are always used, so a caller must pass the same `Primitives` to every `AddTransaction` and `IsValid` on a ledger. Every contract holds for each `Primitives` value separately.
