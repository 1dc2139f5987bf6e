/**
 * A block of the ledger: its fields, its content hash and the proof-of-work
 * mining loop that searches for a nonce whose hash meets the difficulty.
 */
module Blocks {
  import opened GoStd

  /** A Go float64, carried as its IEEE 754 binary64 bit pattern; nothing computes with it. */
  type Float64 = bv64

  /** The values a block's data map holds: the party names and the amount. */
  datatype Value = Str(s: string) | Float(f: Float64)

  /**
   * A whole Go time.Time value (wall clock, monotonic reading and location), supplied
   * by the caller in place of time.Now(). The model never looks inside it: `instant`
   * is only an identity, and its text form comes from Primitives.timeString.
   */
  datatype Time = Time(instant: int)

  /** The lower-case hexadecimal text of a 256-bit digest. */
  type Digest = s: string | |s| == 64 && IsLowerHex(s) witness seq(64, _ => '0')

  predicate IsLowerHex(s: string)
  {
    forall i :: 0 <= i < |s| ==> '0' <= s[i] <= '9' || 'a' <= s[i] <= 'f'
  }

  /**
   * The library code the hash depends on and that the model does not look into:
   * SHA-256 followed by "%x" formatting, JSON marshalling of the data map, and
   * the text form of a timestamp. Each is deterministic, so a function.
   */
  datatype Primitives = Primitives(
    sha256Hex: string -> Digest,
    marshalJSON: map<string, Value> -> string,
    timeString: Time -> string)

  datatype Block = Block(
    data: map<string, Value>,
    hash: string,
    previousHash: string,
    timestamp: Time,
    pow: int)

  /** Either the value an operation produced or the message of the panic that stopped it. */
  datatype Outcome<T> = Ok(value: T) | Panic(message: string)

  /** The text calculateHash digests: previous hash, JSON data, timestamp, nonce. */
  function HashInput(p: Primitives, b: Block): string
  {
    b.previousHash + p.marshalJSON(b.data) + p.timeString(b.timestamp) + Itoa(b.pow)
  }

  /** Block.calculateHash; the stored `hash` field takes no part in it. */
  function CalculateHash(p: Primitives, b: Block): Digest
  {
    p.sha256Hex(HashInput(p, b))
  }

  /** The hash the block would get with nonce `n`. */
  function HashAtNonce(p: Primitives, b: Block, n: int): Digest
  {
    CalculateHash(p, b.(pow := n))
  }

  /** The hash depends on the four hashed fields only: the stored hash is not hashed. */
  lemma HashDeterminedByContent(p: Primitives, b: Block, c: Block)
    requires b.previousHash == c.previousHash && b.data == c.data
    requires b.timestamp == c.timestamp && b.pow == c.pow
    ensures CalculateHash(p, b) == CalculateHash(p, c)
  {
  }

  /** Every mining attempt digests a different text: the nonce is spelled out at the end. */
  lemma NonceInputsDistinct(p: Primitives, b: Block, m: int, n: int)
    requires m != n
    ensures HashInput(p, b.(pow := m)) != HashInput(p, b.(pow := n))
  {
    var head := b.previousHash + p.marshalJSON(b.data) + p.timeString(b.timestamp);
    if HashInput(p, b.(pow := m)) == HashInput(p, b.(pow := n)) {
      assert HashInput(p, b.(pow := m)) == head + Itoa(m);
      assert HashInput(p, b.(pow := n)) == head + Itoa(n);
      assert Itoa(m) == (head + Itoa(m))[|head|..];
      assert Itoa(n) == (head + Itoa(n))[|head|..];
      ItoaInjective(m, n);
    }
  }

  /** Does `h` start with `difficulty` copies of "0"? (the mining loop's exit test) */
  predicate MeetsDifficulty(h: string, difficulty: nat)
  {
    HasPrefix(h, Repeat("0", difficulty))
  }

  /** Meeting the difficulty means: the first `difficulty` characters exist and are all '0'. */
  lemma MeetsDifficultyMeaning(h: string, difficulty: nat)
    ensures MeetsDifficulty(h, difficulty) <==>
            difficulty <= |h| && forall i :: 0 <= i < difficulty ==> h[i] == '0'
  {
    HasRepeatedPrefix(h, '0', difficulty);
  }

  /** A hash meeting a difficulty meets every lower one. */
  lemma MeetsLowerDifficulty(h: string, lower: nat, higher: nat)
    requires lower <= higher && MeetsDifficulty(h, higher)
    ensures MeetsDifficulty(h, lower)
  {
    MeetsDifficultyMeaning(h, higher);
    MeetsDifficultyMeaning(h, lower);
  }

  /**
   * The mining loop ends: the difficulty is negative (Repeat panics at once),
   * the stored hash already meets it, or some larger nonce gives a hash that does.
   */
  ghost predicate Minable(p: Primitives, b: Block, difficulty: int)
  {
    || difficulty < 0
    || MeetsDifficulty(b.hash, difficulty)
    || exists n :: b.pow < n && MeetsDifficulty(HashAtNonce(p, b, n), difficulty)
  }

  /**
   * Block.mine: while the stored hash does not start with `difficulty` zeros,
   * increment the nonce and recompute the hash. The loop tests the stored hash
   * first, so a block whose hash already meets the target is returned unchanged.
   */
  method Mine(p: Primitives, b: Block, difficulty: int) returns (r: Outcome<Block>)
    requires Minable(p, b, difficulty)
    ensures difficulty < 0 ==> r == Panic("strings: negative Repeat count")
    ensures 0 <= difficulty ==> r.Ok?
    ensures 0 <= difficulty ==>
      && r.value.data == b.data
      && r.value.previousHash == b.previousHash
      && r.value.timestamp == b.timestamp
      && b.pow <= r.value.pow
      && MeetsDifficulty(r.value.hash, difficulty)
    ensures 0 <= difficulty ==> (r.value == b <==> MeetsDifficulty(b.hash, difficulty))
    ensures 0 <= difficulty && !MeetsDifficulty(b.hash, difficulty) ==>
      b.pow < r.value.pow && r.value.hash == CalculateHash(p, r.value)
    ensures 0 <= difficulty ==>
      forall k :: b.pow < k < r.value.pow ==> !MeetsDifficulty(HashAtNonce(p, b, k), difficulty)
  {
    if difficulty < 0 {
      return Panic("strings: negative Repeat count");
    }
    var target := Repeat("0", difficulty);
    ghost var goal := b.pow;
    if !HasPrefix(b.hash, target) {
      goal :| b.pow < goal && MeetsDifficulty(HashAtNonce(p, b, goal), difficulty);
    }
    var pow, hash := b.pow, b.hash;
    while !HasPrefix(hash, target)
      invariant b.pow <= pow <= goal
      invariant pow == b.pow ==> hash == b.hash
      invariant b.pow < pow ==> hash == HashAtNonce(p, b, pow)
      invariant !HasPrefix(b.hash, target) ==>
        b.pow < goal && MeetsDifficulty(HashAtNonce(p, b, goal), difficulty)
      invariant forall k :: b.pow < k < pow ==> !MeetsDifficulty(HashAtNonce(p, b, k), difficulty)
      decreases goal - pow
    {
      pow := pow + 1;
      hash := CalculateHash(p, b.(pow := pow));
    }
    return Ok(b.(pow := pow, hash := hash));
  }
}
