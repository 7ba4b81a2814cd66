# Hash-linked blocks, in Dafny

A model of `blockchain.py`, a minimal hash-linked ledger. Each `Block` stores an
index, a timestamp, a payload (`data`) and the hash of its predecessor
(`previous_hash`). At construction it computes its own `hash` once: SHA-256 of
the UTF-8 text `str(index) + str(timestamp) + data + previous_hash`. A genesis
block has index 0, payload `"Genesis Block"` and the sentinel previous hash
`"0"`. `next_block` derives a successor: the index goes up by one, the new index
is appended to the payload, and the successor links to the parent's stored
hash. The test builds a chain of a genesis block and 20 successors.

Files:

- `decimal.dfy` (module `Decimal`): Python's `str()` of an `int`
  (`IntToString`), used both in the hash input and in the payload that
  `next_block` builds. `ParseInt` is an independent reading of decimal text.
  The two are proved inverse on exactly the canonical strings.
- `blockchain.dfy` (module `Blockchain`): the `Block` class with its
  constructor and `HashBlock`, the hash input `Preimage`, `MakeGenesisBlock`,
  `NextBlock`, the chain-building loop `TestChain`, the linkage predicate
  `IsLinked`, and lemmas about the hash input and the linkage.

Design:

- `Block` is a class because a Python block is a mutable object. Its fields
  are `var`s, and `hash` is written only by the constructor.
  `make_genesis_block` and `next_block` allocate a block, so they are methods
  with no `modifies` clause.
- SHA-256 (with the UTF-8 encoding before it) is the parameter
  `digest: string -> string`, and nothing is assumed about it. Lemmas that
  need a property of it, such as no collision between two given inputs, take
  that property as a hypothesis.
- The clock reading is a parameter of type `Timestamp`, the text `str()` gives
  a `datetime`.
- `IsLinked` and `AllSealed` are specification predicates. The source has no
  function that checks a chain.
- The hash input has no separators, so different field values can give the
  same input whenever characters can move across a field boundary. Index 1
  with data "23" and index 12 with data "3" collide only when the timestamp
  between them is empty or made only of '2's. The model proves a collision at
  each of the three boundaries. At the index/timestamp boundary
  (`PreimageAmbiguousAtIndex`) it needs a timestamp that `str()` of a
  `datetime` never produces, so only a directly built `Block` meets it. At the
  timestamp/data boundary (`PreimageAmbiguousAtTimestamp`) it happens with
  real clock text: `str()` of a `datetime` drops the ".ffffff" part when the
  microsecond is 0, so `next_block(p, ".500000x")` at 12:00:00 and
  `next_block(p, "x")` at 12:00:00.500000 hash the same input. At the
  data/previous-hash boundary (`PreimageAmbiguousAtData`) the trailing
  characters of the data may move into the previous hash.
- The test's closing assertion, `assertTrue(len(blockchain), 20)`, checks only
  that the list is non-empty. `TestChain` instead proves that the chain has 21
  blocks.

## Model

| member | source | states |
|---|---|---|
| `Decimal.NatToString` | blockchain.py:20-21 | `str()` of a non-negative index is non-empty decimal digits with no leading zero; it starts with '0' exactly for 0 and is one character long exactly below 10 |
| `Decimal.IntToString` | blockchain.py:20-21 | `str()` of any int is canonical decimal text; it starts with '-' exactly when the value is negative |
| `Decimal.IntRoundTrip` | blockchain.py:20-21 | reading `str(i)` back as decimal gives `i` for every int |
| `Decimal.IntCanonicalRoundTrip` | blockchain.py:20-21 | every canonical decimal text reads as a number whose `str()` is that text, so `str()` is onto the canonical strings |
| `Decimal.IntToStringInjective` | blockchain.py:37-40 | distinct indices have distinct decimal forms in the hash input and the payload |
| `Blockchain.Preimage` | blockchain.py:20-22 | the hash input joins `str(index)`, the timestamp, the data and the previous hash with no separators, so its length is the sum of the four lengths |
| `Blockchain.Block.constructor` | blockchain.py:8-13 | the four arguments are stored unchanged, and the stored hash is the digest of `str(index) + timestamp + data + previous_hash` over those fields; the constructor checks none of its arguments (the text conversion and encoding inside `hash_block` can raise in Python, see Left out) |
| `Blockchain.Block.HashBlock` | blockchain.py:18-23 | `hash_block` is the digest of the hash input of the block's current fields, whatever hash the block has stored |
| `Blockchain.Block.AssignData` | blockchain.py:8-13 | assigning `data` after construction leaves the stored hash as it was, while the hash input changes whenever the data does |
| `Blockchain.PreimageLayout` | blockchain.py:20-22 | the four fields lie side by side in the hash input, in order: `str(index)` first, then the timestamp, the data and the previous hash, each starting where the one before ends |
| `Blockchain.HashBlockDeterministic` | blockchain.py:18-23 | `hash_block` depends only on index, timestamp, data and previous hash: two blocks equal on those give the same digest, whatever hashes they have stored |
| `Blockchain.PreimageInjectiveInData` | blockchain.py:18-23 | with index, timestamp and previous hash fixed, two hash inputs are equal if and only if the data are equal |
| `Blockchain.PreimageDeterminesPreviousHash` | blockchain.py:18-23 | two equal hash inputs whose previous hashes have the same length have the same previous hash, because the previous hash comes last |
| `Blockchain.PreimageAmbiguousAtData` | blockchain.py:20-22 | moving characters from the end of the data to the front of the previous hash leaves the hash input unchanged |
| `Blockchain.PreimageAmbiguousAtTimestamp` | blockchain.py:20-22 | moving characters from the end of the timestamp to the front of the data leaves the hash input unchanged |
| `Blockchain.PreimageAmbiguousAtIndex` | blockchain.py:20-22 | index 1 with timestamp "2"+t and index 12 with timestamp t have the same hash input, for every t, data and previous hash |
| `Blockchain.MakeGenesisBlock` | blockchain.py:26-32 | the genesis block is a new object with index 0, the given timestamp, data "Genesis Block", previous hash "0", and a stored hash equal to the digest of its fields |
| `Blockchain.NextBlock` | blockchain.py:35-42 | the successor is a new object with index `last.index + 1`, the given timestamp, payload `data` followed by the new index in decimal (only the index when `data` is ""), the previous hash `last` had stored at the call, and a stored hash equal to its own digest; `last` is left unchanged |
| `Blockchain.TestChain` | blockchain.py:47-54 | genesis plus 20 appends gives 21 new blocks; block 0 is the genesis block; block k has index k; every block after the first links to the stored hash of the block before it; every stored hash is the digest of its block; block k > 0 carries "some data here" followed by k, and the k-th clock reading |
| `Blockchain.ExtendTestChain` | blockchain.py:49-54 | one more `next_block` of the last block with payload "some data here" keeps every property the test's chain has after each append |
| `Blockchain.TestChainDistinct` | blockchain.py:49-54 | the blocks of the test's chain are pairwise distinct objects |
| `Blockchain.HashCommitsToHistory` | blockchain.py:18-23 | in two linked chains whose hashes are all sealed, equal hashes at position k imply equal hashes and equal hash inputs at every earlier position. This assumes no digest collision between the two chains and hashes of equal length. So the hash of a block commits to every block before it |

## Left out

- SHA-256, `hashlib` and the UTF-8 encoding are foreign code. They are the uninterpreted parameter `digest`, so nothing about the digest bits (width, hex alphabet, collision resistance) is modelled.
- `datetime.now()` and the text of a `datetime` are wall-clock input and depend on formatting. Each clock reading is a `Timestamp` parameter, and `TestChain` takes its 20 readings as a sequence.
- Python's dynamic typing is not modelled. `data` and `previous_hash` are strings and `index` is an int, which is all the source ever passes. `str()` of any other payload type is not modelled.
- Attribute assignment is modelled only for `data`, in `AssignData`. The other fields are `var`s too, and the stored hash stays put for them by the same frame argument.
- `Block.__str__`, the `print` calls, `unittest.main` and the final `assertTrue` are diagnostic output and test plumbing (blockchain.py:15-16, 55-56, 59, 62-63).
- genesis.py is not part of this model. Its `create_genesis_block` builds the same genesis block from a `block` module that is not available, so it duplicates `MakeGenesisBlock`.
- Chain validation (the longest correctly linked prefix) does not exist in `blockchain.py`. `IsLinked` only states the linkage that `TestChain` establishes.
- `str(index)` raises ValueError in Python 3.11 and later for an int of more than 4300 digits (the default `int_max_str_digits`), and `.encode('utf-8')` raises UnicodeEncodeError for a string holding a lone surrogate (blockchain.py:20-22). Neither error is modelled: `IntToString` is total, and the model's strings hold no surrogate halves.
