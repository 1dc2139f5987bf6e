/**
 * The ledger: a genesis block followed by mined blocks, each linked to its
 * predecessor through `previousHash`, with creation, append and validation.
 */
module Ledger {
  import opened GoStd
  import opened Blocks

  /** AddTransaction's data map: exactly the keys "from", "to" and "amount". */
  function TxData(from: string, to: string, amount: Float64): (d: map<string, Value>)
    ensures d.Keys == {"from", "to", "amount"}
    ensures d["from"] == Str(from) && d["to"] == Str(to) && d["amount"] == Float(amount)
  {
    map["from" := Str(from), "to" := Str(to), "amount" := Float(amount)]
  }

  /** The block AddTransaction builds before mining: Go's zero values for hash ("") and pow (0). */
  function NewBlock(from: string, to: string, amount: Float64, previousHash: string, now: Time): Block
  {
    Block(TxData(from, to, amount), "", previousHash, now, 0)
  }

  /** The genesis block: sentinel hash "0", nonce 0, no predecessor and no data. */
  predicate IsGenesis(g: Block)
  {
    g.hash == "0" && g.pow == 0 && g.previousHash == "" && g.data == map[]
  }

  /** The two checks IsValid makes of each block after the first. */
  predicate LinkValid(p: Primitives, previous: Block, current: Block)
  {
    current.hash == CalculateHash(p, current) && current.previousHash == previous.hash
  }

  /** Every block from the second on carries its own hash and links to its predecessor. */
  predicate ChainValid(p: Primitives, chain: seq<Block>)
  {
    forall i :: 1 <= i < |chain| ==> LinkValid(p, chain[i - 1], chain[i])
  }

  /** A chain of the genesis block alone is valid, although the genesis hash is never a digest. */
  lemma GenesisChainValid(p: Primitives, g: Block)
    requires IsGenesis(g)
    ensures ChainValid(p, [g])
    ensures CalculateHash(p, g) != g.hash
  {
  }

  /** Appending keeps a chain valid exactly when the new block is sealed and linked to the tip. */
  lemma AppendValid(p: Primitives, chain: seq<Block>, b: Block)
    requires 1 <= |chain|
    ensures ChainValid(p, chain + [b]) <==>
            ChainValid(p, chain) && LinkValid(p, chain[|chain| - 1], b)
  {
    var extended := chain + [b];
    if ChainValid(p, extended) {
      forall i | 1 <= i < |chain| ensures LinkValid(p, chain[i - 1], chain[i]) {
        assert extended[i - 1] == chain[i - 1] && extended[i] == chain[i];
      }
      assert LinkValid(p, extended[|chain| - 1], extended[|chain|]);
    }
  }

  /** A block still holding the zero-value hash "" can never be appended validly. */
  lemma UnsealedAppendInvalid(p: Primitives, chain: seq<Block>, b: Block)
    requires 1 <= |chain| && b.hash == ""
    ensures !ChainValid(p, chain + [b])
  {
    AppendValid(p, chain, b);
  }

  /** Overwriting the stored hash of a non-genesis block of a valid chain is detected. */
  lemma TamperedHashDetected(p: Primitives, chain: seq<Block>, i: nat, h: string)
    requires ChainValid(p, chain) && 1 <= i < |chain| && h != chain[i].hash
    ensures !ChainValid(p, chain[i := chain[i].(hash := h)])
  {
    var tampered := chain[i := chain[i].(hash := h)];
    HashDeterminedByContent(p, chain[i], tampered[i]);
    assert !LinkValid(p, tampered[i - 1], tampered[i]);
  }

  /** Overwriting the stored link of a non-genesis block of a valid chain is detected. */
  lemma TamperedLinkDetected(p: Primitives, chain: seq<Block>, i: nat, h: string)
    requires ChainValid(p, chain) && 1 <= i < |chain| && h != chain[i].previousHash
    ensures !ChainValid(p, chain[i := chain[i].(previousHash := h)])
  {
    var tampered := chain[i := chain[i].(previousHash := h)];
    assert LinkValid(p, chain[i - 1], chain[i]);
    assert tampered[i - 1] == chain[i - 1];
    assert !LinkValid(p, tampered[i - 1], tampered[i]);
  }

  /** How AddTransaction ended: it returned, or mining panicked before the append. */
  datatype Completion = Returned | Panicked(message: string)

  class Blockchain {
    var genesisBlock: Block
    var chain: seq<Block>
    var difficulty: int

    /**
     * The chain is never empty, starts with the untouched genesis block, and
     * every later block links to the hash of the block before it.
     */
    ghost predicate Valid()
      reads this
    {
      && 1 <= |chain|
      && chain[0] == genesisBlock
      && IsGenesis(genesisBlock)
      && forall i :: 1 <= i < |chain| ==> chain[i].previousHash == chain[i - 1].hash
    }

    /** The tip AddTransaction extends. */
    function LastBlock(): Block
      reads this
      requires Valid()
    {
      chain[|chain| - 1]
    }

    /** CreateBlockchain: the genesis block, stored both on its own and as the whole chain. */
    constructor (difficulty: int, now: Time)
      ensures Valid()
      ensures IsGenesis(genesisBlock) && genesisBlock.timestamp == now
      ensures chain == [genesisBlock]
      ensures this.difficulty == difficulty
      ensures forall p :: ChainValid(p, chain)
    {
      var g := Block(map[], "0", "", now, 0);
      genesisBlock := g;
      chain := [g];
      this.difficulty := difficulty;
    }

    /**
     * AddTransaction: build a block over the tip's hash, mine it at the chain's
     * difficulty and append it. A negative difficulty panics inside mining, and
     * nothing is appended then.
     */
    method AddTransaction(p: Primitives, from: string, to: string, amount: Float64, now: Time)
      returns (status: Completion)
      requires Valid()
      requires Minable(p, NewBlock(from, to, amount, LastBlock().hash, now), difficulty)
      modifies this
      ensures Valid()
      ensures genesisBlock == old(genesisBlock) && difficulty == old(difficulty)
      ensures difficulty < 0 ==> status.Panicked? && chain == old(chain)
      ensures 0 <= difficulty ==>
        && status == Returned
        && |chain| == |old(chain)| + 1
        && chain[..|old(chain)|] == old(chain)
      ensures 0 <= difficulty ==>
        && LastBlock().data == TxData(from, to, amount)
        && LastBlock().previousHash == old(LastBlock().hash)
        && LastBlock().timestamp == now
        && 0 <= LastBlock().pow
        && MeetsDifficulty(LastBlock().hash, difficulty)
      ensures difficulty == 0 ==> LastBlock() == NewBlock(from, to, amount, old(LastBlock().hash), now)
      ensures 1 <= difficulty ==>
        1 <= LastBlock().pow && LastBlock().hash == CalculateHash(p, LastBlock())
      ensures 1 <= difficulty ==>
        forall k :: 0 < k < LastBlock().pow ==>
          !MeetsDifficulty(HashAtNonce(p, NewBlock(from, to, amount, old(LastBlock().hash), now), k), difficulty)
      ensures 1 <= difficulty ==> (ChainValid(p, chain) <==> old(ChainValid(p, chain)))
      ensures difficulty == 0 ==> !ChainValid(p, chain)
    {
      var blockData := TxData(from, to, amount);
      var lastBlock := chain[|chain| - 1];
      var newBlock := Block(blockData, "", lastBlock.hash, now, 0);
      assert 1 <= difficulty ==> !MeetsDifficulty(newBlock.hash, difficulty);
      var mined := Mine(p, newBlock, difficulty);
      match mined
      case Panic(message) =>
        status := Panicked(message);
      case Ok(b) =>
        AppendValid(p, chain, b);
        chain := chain + [b];
        status := Returned;
    }

    /**
     * IsValid: walk the adjacent pairs from the second block on and report false
     * at the first block whose hash or link does not check out.
     */
    method IsValid(p: Primitives) returns (valid: bool)
      requires 1 <= |chain|
      ensures valid == ChainValid(p, chain)
    {
      var i := 0;
      while i < |chain| - 1
        invariant 0 <= i <= |chain| - 1
        invariant forall k :: 1 <= k <= i ==> LinkValid(p, chain[k - 1], chain[k])
      {
        var previousBlock := chain[i];
        var currentBlock := chain[i + 1];
        if currentBlock.hash != CalculateHash(p, currentBlock) || currentBlock.previousHash != previousBlock.hash {
          assert !LinkValid(p, chain[i], chain[i + 1]);
          return false;
        }
        i := i + 1;
      }
      return true;
    }
  }

  /** Create, append one transaction and validate, at difficulty 0: the chain reports invalid. */
  method ZeroDifficultyRoundTrip(p: Primitives, from: string, to: string, amount: Float64, created: Time, sent: Time)
    returns (valid: bool)
    ensures !valid
  {
    var ledger := new Blockchain(0, created);
    var _ := ledger.AddTransaction(p, from, to, amount, sent);
    valid := ledger.IsValid(p);
  }

  /** Create, append one transaction and validate, at a positive difficulty: the chain is valid. */
  method PositiveDifficultyRoundTrip(p: Primitives, difficulty: int, from: string, to: string, amount: Float64,
                                     created: Time, sent: Time)
    returns (valid: bool, length: nat)
    requires 1 <= difficulty
    requires Minable(p, NewBlock(from, to, amount, "0", sent), difficulty)
    ensures valid && length == 2
  {
    var ledger := new Blockchain(difficulty, created);
    var _ := ledger.AddTransaction(p, from, to, amount, sent);
    valid := ledger.IsValid(p);
    length := |ledger.chain|;
  }

  /** Overwrite the previousHash of a non-genesis block of a valid ledger, then validate: false. */
  method TamperLinkThenValidate(p: Primitives, ledger: Blockchain, i: nat, h: string) returns (valid: bool)
    requires ledger.Valid() && ChainValid(p, ledger.chain)
    requires 1 <= i < |ledger.chain| && h != ledger.chain[i].previousHash
    modifies ledger
    ensures ledger.chain == old(ledger.chain)[i := old(ledger.chain)[i].(previousHash := h)]
    ensures !valid
  {
    TamperedLinkDetected(p, ledger.chain, i, h);
    ledger.chain := ledger.chain[i := ledger.chain[i].(previousHash := h)];
    valid := ledger.IsValid(p);
  }

  /** Overwrite the stored hash of a non-genesis block of a valid ledger, then validate: false. */
  method TamperHashThenValidate(p: Primitives, ledger: Blockchain, i: nat, h: string) returns (valid: bool)
    requires ledger.Valid() && ChainValid(p, ledger.chain)
    requires 1 <= i < |ledger.chain| && h != ledger.chain[i].hash
    modifies ledger
    ensures ledger.chain == old(ledger.chain)[i := old(ledger.chain)[i].(hash := h)]
    ensures !valid
  {
    TamperedHashDetected(p, ledger.chain, i, h);
    ledger.chain := ledger.chain[i := ledger.chain[i].(hash := h)];
    valid := ledger.IsValid(p);
  }
}
