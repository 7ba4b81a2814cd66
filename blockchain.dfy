/**
  A hash-linked chain of blocks, as blockchain.py builds it.

  A Block is a mutable object: its constructor stores index, timestamp, data and
  previous hash, then computes and stores its own hash once. Genesis and next
  blocks are made by allocating a Block; the test builds a chain by appending
  twenty successors to a genesis block.

  SHA-256 over the UTF-8 encoding of its argument, returned as lowercase hex, is
  the parameter `digest`; the textual form of a datetime is the Timestamp the
  caller passes in.
 */
module Blockchain {
  import opened Decimal

  /** The text str() gives the clock reading taken when a block is made. */
  type Timestamp = string

  /** SHA-256 of the UTF-8 bytes of a string, as lowercase hex. */
  type Digest = string -> string

  const GenesisData: string := "Genesis Block"
  const GenesisPreviousHash: string := "0"

  /** Payload and number of appends used by the chain-building test. */
  const TestPayload: string := "some data here"
  const TestAppends: nat := 20

  /**
    The text a block's hash is taken over: the string forms of index,
    timestamp, data and previous hash, in that order, with no separators.
   */
  function Preimage(index: int, timestamp: Timestamp, data: string, previousHash: string): (r: string)
    ensures |r| == |IntToString(index)| + |timestamp| + |data| + |previousHash|
  {
    IntToString(index) + timestamp + data + previousHash
  }

  class Block {
    var index: int
    var timestamp: Timestamp
    var data: string
    var previousHash: string
    var hash: string

    /**
      Stores the four fields, then the hash of those fields. The constructor
      itself checks none of its arguments.
     */
    constructor (index: int, timestamp: Timestamp, data: string, previousHash: string, digest: Digest)
      ensures this.index == index && this.timestamp == timestamp
      ensures this.data == data && this.previousHash == previousHash
      ensures hash == digest(Preimage(index, timestamp, data, previousHash))
      ensures Sealed(digest)
    {
      this.index := index;
      this.timestamp := timestamp;
      this.data := data;
      this.previousHash := previousHash;
      new;
      hash := HashBlock(digest);
    }

    /** The hash input of the block's current fields. */
    function HashInput(): string
      reads this
    {
      Preimage(index, timestamp, data, previousHash)
    }

    /** hash_block: the digest of the current fields (not the stored hash). */
    function HashBlock(digest: Digest): (h: string)
      reads this
      ensures h == digest(Preimage(index, timestamp, data, previousHash))
    {
      digest(HashInput())
    }

    /** The stored hash is the digest of the current fields. */
    ghost predicate Sealed(digest: Digest)
      reads this
    {
      hash == HashBlock(digest)
    }

    /**
      Python's attribute assignment `block.data = newData`: the hash stored at
      construction is kept, while the input it should be the digest of changes
      whenever the data does.
     */
    method AssignData(newData: string)
      modifies this`data
      ensures data == newData
      ensures hash == old(hash)
      ensures newData != old(data) ==> HashInput() != old(HashInput())
    {
      PreimageInjectiveInData(index, timestamp, data, newData, previousHash);
      data := newData;
    }
  }

  /**
    The four fields lie side by side in the hash input, in order, each at the
    offset where the ones before it end.
   */
  lemma PreimageLayout(index: int, timestamp: Timestamp, data: string, previousHash: string)
    ensures var r, n, t := Preimage(index, timestamp, data, previousHash), |IntToString(index)|, |timestamp|;
      && r[..n] == IntToString(index)
      && r[n..n + t] == timestamp
      && r[n + t..n + t + |data|] == data
      && r[n + t + |data|..] == previousHash
  {
    var r, n, t := Preimage(index, timestamp, data, previousHash), |IntToString(index)|, |timestamp|;
    assert r == IntToString(index) + timestamp + data + previousHash;
  }

  /** hash_block reads only the four fields: blocks that agree on them agree on it. */
  lemma HashBlockDeterministic(a: Block, b: Block, digest: Digest)
    requires a.index == b.index && a.timestamp == b.timestamp
    requires a.data == b.data && a.previousHash == b.previousHash
    ensures a.HashBlock(digest) == b.HashBlock(digest)
  {
  }

  /** With the other three fields fixed, the hash input determines the data. */
  lemma PreimageInjectiveInData(index: int, timestamp: Timestamp, d1: string, d2: string, previousHash: string)
    ensures Preimage(index, timestamp, d1, previousHash) == Preimage(index, timestamp, d2, previousHash)
            <==> d1 == d2
  {
    var head := IntToString(index) + timestamp;
    var p1 := Preimage(index, timestamp, d1, previousHash);
    var p2 := Preimage(index, timestamp, d2, previousHash);
    if p1 == p2 {
      assert p1 == head + d1 + previousHash;
      assert p2 == head + d2 + previousHash;
      assert |d1| == |d2|;
      assert d1 == p1[|head|..|head| + |d1|];
      assert d2 == p2[|head|..|head| + |d2|];
    }
  }

  /** Equal hash inputs whose previous hashes have the same length agree on the previous hash. */
  lemma PreimageDeterminesPreviousHash(i1: int, t1: Timestamp, d1: string, p1: string,
                                       i2: int, t2: Timestamp, d2: string, p2: string)
    requires Preimage(i1, t1, d1, p1) == Preimage(i2, t2, d2, p2)
    requires |p1| == |p2|
    ensures p1 == p2
  {
    var s := Preimage(i1, t1, d1, p1);
    var n := |s| - |p1|;
    assert s == (IntToString(i1) + t1 + d1) + p1;
    assert s == (IntToString(i2) + t2 + d2) + p2;
    assert p1 == s[n..];
    assert p2 == s[n..];
  }

  /**
    The hash input has no separators, so distinct field values can share it:
    characters can move across the data / previous-hash boundary ...
   */
  lemma PreimageAmbiguousAtData(index: int, timestamp: Timestamp, data: string, moved: string, previousHash: string)
    ensures Preimage(index, timestamp, data + moved, previousHash) == Preimage(index, timestamp, data, moved + previousHash)
  {
  }

  /** ... across the timestamp / data boundary ... */
  lemma PreimageAmbiguousAtTimestamp(index: int, timestamp: Timestamp, moved: string, data: string, previousHash: string)
    ensures Preimage(index, timestamp + moved, data, previousHash) == Preimage(index, timestamp, moved + data, previousHash)
  {
    assert IntToString(index) + (timestamp + moved) + data == IntToString(index) + timestamp + (moved + data);
  }

  /**
    ... and across the index / timestamp boundary: index 1 with timestamp
    "2" + t against index 12 with timestamp t. No text str() gives a datetime
    starts like both, so only blocks built directly with such timestamps meet it.
   */
  lemma PreimageAmbiguousAtIndex(timestamp: Timestamp, data: string, previousHash: string)
    ensures Preimage(1, "2" + timestamp, data, previousHash) == Preimage(12, timestamp, data, previousHash)
  {
  }

  /** make_genesis_block: block 0, fixed payload, the sentinel previous hash "0". */
  method MakeGenesisBlock(now: Timestamp, digest: Digest) returns (b: Block)
    ensures fresh(b)
    ensures b.index == 0 && b.timestamp == now
    ensures b.data == GenesisData && b.previousHash == GenesisPreviousHash
    ensures b.Sealed(digest)
  {
    b := new Block(0, now, GenesisData, GenesisPreviousHash, digest);
  }

  /**
    next_block: the successor of `last`, one index further, whose payload is
    `data` followed by the new index in decimal (just the index for the default
    data ""), and which links to the hash `last` has stored at the time of the
    call. `last` itself is left as it is.
   */
  method NextBlock(last: Block, data: string, now: Timestamp, digest: Digest) returns (b: Block)
    ensures fresh(b)
    ensures b.index == last.index + 1 && b.timestamp == now
    ensures b.data == data + IntToString(last.index + 1)
    ensures data == "" ==> b.data == IntToString(b.index)
    ensures b.previousHash == last.hash
    ensures b.Sealed(digest)
    ensures unchanged(last)
  {
    var idx := last.index + 1;
    b := new Block(idx, now, data + IntToString(idx), last.hash, digest);
  }

  /** Each block after the first stores the hash of the block before it. */
  ghost predicate IsLinked(chain: seq<Block>)
    reads chain
  {
    forall k :: 0 < k < |chain| ==> chain[k].previousHash == chain[k - 1].hash
  }

  /** Every block's stored hash is the digest of its current fields. */
  ghost predicate AllSealed(chain: seq<Block>, digest: Digest)
    reads chain
  {
    forall k :: 0 <= k < |chain| ==> chain[k].Sealed(digest)
  }

  /** Block k has index k. */
  ghost predicate Indexed(chain: seq<Block>)
    reads chain
  {
    forall k :: 0 <= k < |chain| ==> chain[k].index == k
  }

  /** The chain starts with a genesis block made at `genesisTime`. */
  ghost predicate StartsWithGenesis(chain: seq<Block>, genesisTime: Timestamp)
    reads chain
  {
    && |chain| >= 1
    && chain[0].timestamp == genesisTime
    && chain[0].data == GenesisData && chain[0].previousHash == GenesisPreviousHash
  }

  /**
    Block k > 0 was made at the clock reading times[k - 1] and carries
    TestPayload followed by k.
   */
  ghost predicate HasTestPayloads(chain: seq<Block>, times: seq<Timestamp>)
    reads chain
  {
    && |chain| <= |times| + 1
    && forall k :: 0 < k < |chain| ==>
         chain[k].timestamp == times[k - 1] && chain[k].data == TestPayload + IntToString(k)
  }

  /**
    What the chain-building test has built: a genesis block, then one block
    per clock reading used so far, block k with index k, each linked to the
    stored hash of the one before, every stored hash the digest of its block.
   */
  ghost predicate TestChainBuilt(chain: seq<Block>, genesisTime: Timestamp, times: seq<Timestamp>, digest: Digest)
    reads chain
  {
    && StartsWithGenesis(chain, genesisTime)
    && Indexed(chain) && IsLinked(chain) && AllSealed(chain, digest)
    && HasTestPayloads(chain, times)
  }

  lemma AppendIndexed(chain: seq<Block>, block: Block)
    requires Indexed(chain) && block.index == |chain|
    ensures Indexed(chain + [block])
  {
    var c := chain + [block];
    assert forall k :: 0 <= k < |chain| ==> c[k] == chain[k];
  }

  lemma AppendLinked(chain: seq<Block>, block: Block)
    requires IsLinked(chain) && |chain| >= 1 && block.previousHash == chain[|chain| - 1].hash
    ensures IsLinked(chain + [block])
  {
    var c := chain + [block];
    assert forall k :: 0 <= k < |chain| ==> c[k] == chain[k];
  }

  lemma AppendSealed(chain: seq<Block>, block: Block, digest: Digest)
    requires AllSealed(chain, digest) && block.Sealed(digest)
    ensures AllSealed(chain + [block], digest)
  {
    var c := chain + [block];
    assert forall k :: 0 <= k < |chain| ==> c[k] == chain[k];
  }

  lemma AppendStartsWithGenesis(chain: seq<Block>, block: Block, genesisTime: Timestamp)
    requires StartsWithGenesis(chain, genesisTime)
    ensures StartsWithGenesis(chain + [block], genesisTime)
  {
    assert (chain + [block])[0] == chain[0];
  }

  lemma AppendTestPayload(chain: seq<Block>, block: Block, times: seq<Timestamp>)
    requires HasTestPayloads(chain, times) && 1 <= |chain| <= |times|
    requires block.timestamp == times[|chain| - 1] && block.data == TestPayload + IntToString(|chain|)
    ensures HasTestPayloads(chain + [block], times)
  {
    var c := chain + [block];
    assert forall k :: 0 <= k < |chain| ==> c[k] == chain[k];
  }

  /** A genesis block alone is the start of the test's chain. */
  lemma StartTestChain(genesis: Block, genesisTime: Timestamp, times: seq<Timestamp>, digest: Digest)
    requires genesis.index == 0 && genesis.timestamp == genesisTime
    requires genesis.data == GenesisData && genesis.previousHash == GenesisPreviousHash
    requires genesis.Sealed(digest)
    ensures TestChainBuilt([genesis], genesisTime, times, digest)
  {
  }

  /** One more append, as NextBlock makes it, keeps TestChainBuilt. */
  lemma ExtendTestChain(chain: seq<Block>, block: Block, genesisTime: Timestamp, times: seq<Timestamp>, digest: Digest)
    requires TestChainBuilt(chain, genesisTime, times, digest) && |chain| <= |times|
    requires block.index == chain[|chain| - 1].index + 1 && block.timestamp == times[|chain| - 1]
    requires block.data == TestPayload + IntToString(block.index)
    requires block.previousHash == chain[|chain| - 1].hash && block.Sealed(digest)
    ensures TestChainBuilt(chain + [block], genesisTime, times, digest)
  {
    AppendIndexed(chain, block);
    AppendLinked(chain, block);
    AppendSealed(chain, block, digest);
    AppendStartsWithGenesis(chain, block, genesisTime);
    AppendTestPayload(chain, block, times);
  }

  /**
    The chain-building test: a genesis block, then TestAppends successors, each
    made from the block appended last with the payload TestPayload. `times`
    holds the clock readings of the appends, in order. The result has
    TestAppends + 1 blocks, all new, as TestChainBuilt describes them.
   */
  method TestChain(genesisTime: Timestamp, times: seq<Timestamp>, digest: Digest) returns (chain: seq<Block>)
    requires |times| == TestAppends
    ensures |chain| == TestAppends + 1
    ensures forall k :: 0 <= k < |chain| ==> fresh(chain[k])
    ensures TestChainBuilt(chain, genesisTime, times, digest)
  {
    var genesis := MakeGenesisBlock(genesisTime, digest);
    StartTestChain(genesis, genesisTime, times, digest);
    chain := [genesis];
    var prev := chain[0];
    for n := 0 to TestAppends
      invariant |chain| == n + 1 && prev == chain[n]
      invariant forall k :: 0 <= k < |chain| ==> fresh(chain[k])
      invariant TestChainBuilt(chain, genesisTime, times, digest)
    {
      var block := NextBlock(prev, TestPayload, times[n], digest);
      ExtendTestChain(chain, block, genesisTime, times, digest);
      ghost var before := chain;
      chain := chain + [block];
      forall k | 0 <= k < |chain| ensures fresh(chain[k]) {
        if k < |before| { assert chain[k] == before[k]; }
      }
      prev := block;
    }
  }

  /** The blocks of the test's chain are distinct objects, told apart by their indices. */
  lemma TestChainDistinct(chain: seq<Block>, genesisTime: Timestamp, times: seq<Timestamp>, digest: Digest)
    requires TestChainBuilt(chain, genesisTime, times, digest)
    ensures forall i, j :: 0 <= i < j < |chain| ==> chain[i] != chain[j]
  {
    forall i, j | 0 <= i < j < |chain| ensures chain[i] != chain[j] {
      assert chain[i].index == i && chain[j].index == j;
    }
  }

  /**
    Equal hashes at position k of two linked, sealed chains mean equal hashes
    and equal hash inputs at every earlier position, provided the digest has
    no collision between the two chains' blocks and the hashes compared have
    the same length (true of fixed-width hex digests): the hash at k commits to
    the whole history before it.
   */
  lemma {:induction false} HashCommitsToHistory(c1: seq<Block>, c2: seq<Block>, digest: Digest, k: nat)
    requires k < |c1| && k < |c2|
    requires IsLinked(c1) && IsLinked(c2)
    requires AllSealed(c1, digest) && AllSealed(c2, digest)
    requires forall j :: 0 <= j <= k ==>
               digest(c1[j].HashInput()) == digest(c2[j].HashInput()) ==> c1[j].HashInput() == c2[j].HashInput()
    requires forall j :: 0 <= j < k ==> |c1[j].hash| == |c2[j].hash|
    requires c1[k].hash == c2[k].hash
    ensures forall j :: 0 <= j <= k ==> c1[j].hash == c2[j].hash && c1[j].HashInput() == c2[j].HashInput()
    decreases k
  {
    assert c1[k].Sealed(digest) && c2[k].Sealed(digest);
    assert c1[k].HashInput() == c2[k].HashInput();
    if k > 0 {
      assert c1[k].previousHash == c1[k - 1].hash;
      assert c2[k].previousHash == c2[k - 1].hash;
      PreimageDeterminesPreviousHash(c1[k].index, c1[k].timestamp, c1[k].data, c1[k].previousHash,
                                     c2[k].index, c2[k].timestamp, c2[k].data, c2[k].previousHash);
      HashCommitsToHistory(c1, c2, digest, k - 1);
    }
  }
}
