/**
 * A block of the ledger and its proof of work.  A block is hashed over
 * `Data + PrevHash + string(Timestamp)` followed by `string(Nonce)`, where `string(n)` is
 * Go's integer-to-rune conversion, and it counts as mined when the hex digest starts
 * with "0000".
 */
module Blocks {

  import opened Digest
  import opened Runes
  import Proof

  /** The difficulty target of block mining: four '0' hex digits. */
  const MiningPrefix: string := "0000"

  /** The pre-image of a block's digest, before the nonce: what `Block.String` returns. */
  function Preimage(data: string, prevHash: string, timestamp: int): string {
    data + prevHash + RuneStr(timestamp)
  }

  /** The exit test of mining, `hash[:4] == "0000"`, compared character by character. */
  predicate HasMiningPrefix(hash: string) {
    |MiningPrefix| <= |hash| && forall i :: 0 <= i < |MiningPrefix| ==> hash[i] == MiningPrefix[i]
  }

  /** Mining with nonce `nonce` over pre-image `s` hits the target. */
  predicate Solves(digest: string -> string, s: string, nonce: int) {
    HasMiningPrefix(digest(s + RuneStr(nonce)))
  }

  /**
   * The loop of `MineBlock` over pre-image `s`: hash at `start`, then at each following
   * nonce, until a hash starts with "0000".  The scan has no bound in Go; `w` is a ghost
   * nonce at or above `start` that hits the target.  The loop needs nothing of the hash
   * function, so `digest` is any function here; `MineBlock` adds the digest's length.
   */
  method Mine(digest: string -> string, s: string, start: int, ghost w: int) returns (nonce: int, hash: string)
    requires start <= w && Solves(digest, s, w)
    ensures start <= nonce <= w && hash == digest(s + RuneStr(nonce))
    ensures HasMiningPrefix(hash)
    ensures forall n :: start <= n < nonce ==> !Solves(digest, s, n)
  {
    nonce := start;
    hash := digest(s + RuneStr(nonce));
    while !HasMiningPrefix(hash)
      invariant start <= nonce <= w
      invariant hash == digest(s + RuneStr(nonce))
      invariant forall n :: start <= n < nonce ==> !Solves(digest, s, n)
      decreases w - nonce
    {
      nonce := nonce + 1;
      hash := digest(s + RuneStr(nonce));
    }
  }

  class Block {
    var Timestamp: int
    var Data: string
    var PrevHash: string
    var Hash: string
    var Nonce: int

    /** A block literal with every field given. */
    constructor (timestamp: int, data: string, prevHash: string, hash: string, nonce: int)
      ensures Timestamp == timestamp && Data == data && PrevHash == prevHash
      ensures Hash == hash && Nonce == nonce
    {
      Timestamp, Data, PrevHash, Hash, Nonce := timestamp, data, prevHash, hash, nonce;
    }

    /** `GenesisBlock()`: the fixed first block, with a 16-digit placeholder hash. */
    constructor Genesis()
      ensures IsGenesis()
    {
      Timestamp, Data, PrevHash, Hash, Nonce := 0, "Genesis Block", "", "0000000000000000", 0;
    }

    /** The field values of the genesis block. */
    predicate IsGenesis()
      reads this
    {
      Timestamp == 0 && Data == "Genesis Block" && PrevHash == "" &&
      Hash == "0000000000000000" && Nonce == 0
    }

    /**
     * `NewBlock(data, prevHash)`, with the clock reading `now` as a parameter: a block with
     * nonce 0 and empty hash, then mined.  `w` is a ghost nonce that hits the target.
     */
    static method NewBlock(digest: DigestFn, data: string, prevHash: string, now: int, ghost w: int)
      returns (b: Block)
      requires 0 <= w && Solves(digest, Preimage(data, prevHash, now), w)
      ensures fresh(b)
      ensures b.Timestamp == now && b.Data == data && b.PrevHash == prevHash
      ensures 0 <= b.Nonce <= w && Solves(digest, b.String(), b.Nonce)
      ensures forall n :: 0 <= n < b.Nonce ==> !Solves(digest, b.String(), n)
      ensures |b.Hash| == DigestLength && HasMiningPrefix(b.Hash)
      ensures b.IsValid(digest)
    {
      b := new Block(now, data, prevHash, "", 0);
      b.MineBlock(digest, w);
    }

    /**
     * `MineBlock()`: recompute the hash for the current nonce, stop when it starts with
     * "0000", otherwise increment the nonce.  The scan itself is `Mine`, run from the
     * current nonce; its result is stored when it stops.  Nothing else observes the block
     * meanwhile, so the final state is the one the Go loop leaves.
     */
    method MineBlock(digest: DigestFn, ghost w: int)
      requires Nonce <= w && Solves(digest, String(), w)
      modifies this
      ensures Timestamp == old(Timestamp) && Data == old(Data) && PrevHash == old(PrevHash)
      ensures old(Nonce) <= Nonce <= w && Solves(digest, String(), Nonce)
      ensures forall n :: old(Nonce) <= n < Nonce ==> !Solves(digest, String(), n)
      ensures |Hash| == DigestLength && HasMiningPrefix(Hash)
      ensures IsValid(digest)
    {
      var nonce, hash := Mine(digest, String(), Nonce, w);
      Hash, Nonce := hash, nonce;
    }

    /** `String()`: the hash pre-image without the nonce. */
    function String(): string
      reads this`Data, this`PrevHash, this`Timestamp
    {
      Preimage(Data, PrevHash, Timestamp)
    }

    /**
     * `IsValid()`: the recomputed digest equals the stored hash.  Despite the Go
     * doc comment, the "0000" prefix is not checked.
     */
    predicate IsValid(digest: DigestFn)
      reads this
    {
      digest(String() + RuneStr(Nonce)) == Hash
    }
  }

  /** Block validity recomputes exactly what `Proof.CalculateHash` computes. */
  lemma IsValidIsCalculateHash(digest: DigestFn, b: Block)
    ensures b.IsValid(digest) <==> b.Hash == Proof.CalculateHash(digest, b.String(), b.Nonce)
  {
  }

  /**
   * The pre-image does not separate payload from previous hash: ("ab", "c") and ("a", "bc")
   * give the same string, hence the same digest for every nonce.
   */
  lemma PreimageAmbiguous(timestamp: int)
    ensures ("ab", "c") != ("a", "bc")
    ensures Preimage("ab", "c", timestamp) == Preimage("a", "bc", timestamp)
  {
  }

  /**
   * Blocks whose payload and previous hash concatenate alike, with equal timestamps, have
   * the same pre-image, so for every nonce they also get the same digest.
   */
  lemma StringIgnoresSplit(b1: Block, b2: Block)
    requires b1.Data + b1.PrevHash == b2.Data + b2.PrevHash && b1.Timestamp == b2.Timestamp
    ensures b1.String() == b2.String()
  {
  }

  /** Every timestamp after 0x10FFFF seconds (13 January 1970) hashes alike. */
  lemma TimestampIgnored(data: string, prevHash: string, t1: int, t2: int)
    requires 0x11_0000 <= t1 && 0x11_0000 <= t2
    ensures Preimage(data, prevHash, t1) == Preimage(data, prevHash, t2)
  {
  }

  /** The genesis hash has 16 characters, so the genesis block never passes `IsValid`. */
  lemma GenesisNeverValid(digest: DigestFn, b: Block)
    requires b.IsGenesis()
    ensures !b.IsValid(digest)
  {
    assert |digest(b.String() + RuneStr(b.Nonce))| == 64;
  }

  /**
   * `IsValid` does not imply the "0000" prefix: for any hex hash lacking the prefix,
   * some digest function that meets the library's assumptions makes the block valid.
   */
  lemma IsValidIgnoresPrefix(b: Block)
    requires IsHexDigest(b.Hash) && !HasMiningPrefix(b.Hash)
    ensures exists digest: DigestFn :: b.IsValid(digest)
  {
    var digest := DigestWith(b.String() + RuneStr(b.Nonce), b.Hash);
    assert b.IsValid(digest);
  }

  /**
   * The witness `NewBlock`, `MineBlock` and `AddBlock` require can be met: for any
   * pre-image and any nonce, some digest function that meets the library's assumptions
   * gives that nonce a hash starting with "0000".
   */
  lemma MiningSatisfiable(s: string, nonce: int)
    ensures exists digest: DigestFn :: Solves(digest, s, nonce)
  {
    var digest := DigestWith(s + RuneStr(nonce), ZeroDigest);
    assert Solves(digest, s, nonce);
  }

  /**
   * Mining from nonce 0 ends, if at all, below 0x110000: every nonce that is not a scalar
   * value hashes like 0xD800, so the least nonce that hits the target is a scalar value
   * or 0xD800 itself.
   */
  lemma LeastSolutionIsSmall(digest: DigestFn, s: string, nonce: int)
    requires 0 <= nonce && Solves(digest, s, nonce)
    requires forall n :: 0 <= n < nonce ==> !Solves(digest, s, n)
    ensures IsScalarValue(nonce) || nonce == 0xD800
  {
    if !IsScalarValue(nonce) && nonce != 0xD800 {
      NonScalarsCollide(nonce);
      assert Solves(digest, s, 0xD800);
      assert false;
    }
  }
}
