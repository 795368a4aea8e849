/**
 * The ledger: an ordered sequence of blocks whose first element is the genesis block.
 * A chain is valid when every block after the first links to its predecessor's hash and
 * passes `Block.IsValid`; the first block is never checked.
 */
module Ledger {

  import opened Digest
  import opened Blocks

  /** Block `i` names the hash of block `i - 1` as its predecessor. */
  predicate LinkedAt(blocks: seq<Block>, i: int)
    requires 1 <= i < |blocks|
    reads blocks
  {
    blocks[i].PrevHash == blocks[i - 1].Hash
  }

  /** The linkage half of chain validity. */
  predicate Linked(blocks: seq<Block>)
    reads blocks
  {
    forall i :: 1 <= i < |blocks| ==> LinkedAt(blocks, i)
  }

  /** The check `IsValid` makes at index `i`: linkage, then the block's own digest. */
  predicate ValidAt(digest: DigestFn, blocks: seq<Block>, i: int)
    requires 1 <= i < |blocks|
    reads blocks
  {
    LinkedAt(blocks, i) && blocks[i].IsValid(digest)
  }

  /** Chain validity: every index from 1 on passes its check. */
  predicate ValidChain(digest: DigestFn, blocks: seq<Block>)
    reads blocks
  {
    forall i :: 1 <= i < |blocks| ==> ValidAt(digest, blocks, i)
  }

  /** A block that may follow `blocks`: the chain is empty or the block links to its tail. */
  predicate Extends(blocks: seq<Block>, b: Block)
    reads blocks, b
  {
    |blocks| == 0 || b.PrevHash == blocks[|blocks| - 1].Hash
  }

  class Blockchain {
    var Blocks: seq<Block>

    /** `NewBlockchain()`: a chain holding only a fresh genesis block. */
    constructor ()
      ensures |Blocks| == 1 && fresh(Blocks[0]) && Blocks[0].IsGenesis()
    {
      var genesis := new Block.Genesis();
      Blocks := [genesis];
    }

    /**
     * `AddBlock(data)`, with the clock reading `now` as a parameter: mine a block over the
     * tail's hash and append it.  Go indexes the tail, so an empty chain panics.  `w` is a
     * ghost nonce that hits the mining target.
     */
    method AddBlock(digest: DigestFn, data: string, now: int, ghost w: int)
      requires |Blocks| > 0
      requires 0 <= w && Solves(digest, Preimage(data, Blocks[|Blocks| - 1].Hash, now), w)
      modifies this
      ensures |Blocks| == |old(Blocks)| + 1 && Blocks[..|old(Blocks)|] == old(Blocks)
      ensures forall i :: 0 <= i < |old(Blocks)| ==> Blocks[i].Hash == old(Blocks[i].Hash)
      ensures fresh(Blocks[|Blocks| - 1])
      ensures Blocks[|Blocks| - 1].Data == data && Blocks[|Blocks| - 1].Timestamp == now
      ensures Blocks[|Blocks| - 1].PrevHash == old(Blocks)[|old(Blocks)| - 1].Hash
      ensures HasMiningPrefix(Blocks[|Blocks| - 1].Hash) && Blocks[|Blocks| - 1].IsValid(digest)
      ensures var b := Blocks[|Blocks| - 1];
        0 <= b.Nonce <= w && forall n :: 0 <= n < b.Nonce ==> !Solves(digest, b.String(), n)
      ensures old(ValidChain(digest, Blocks)) ==> ValidChain(digest, Blocks)
    {
      var prevBlock := Blocks[|Blocks| - 1];
      var newBlock := Block.NewBlock(digest, data, prevBlock.Hash, now, w);
      ValidChainAppend(digest, Blocks, newBlock);
      Blocks := Blocks + [newBlock];
    }

    /** `IsValid()`: an index loop from 1 that returns false at the first failing block. */
    method IsValid(digest: DigestFn) returns (ok: bool)
      ensures ok == ValidChain(digest, Blocks)
    {
      var blocks := Blocks;
      var i := 1;
      while i < |blocks|
        invariant 1 <= i
        invariant forall j :: 1 <= j < i && j < |blocks| ==> ValidAt(digest, blocks, j)
      {
        if !ValidAt(digest, blocks, i) {
          return false;
        }
        i := i + 1;
      }
      return true;
    }
  }

  /** Chains of length 0 or 1 are valid: index 0, the genesis block, is never checked. */
  lemma ShortChainsValid(digest: DigestFn, blocks: seq<Block>)
    requires |blocks| <= 1
    ensures ValidChain(digest, blocks)
  {
  }

  /** The genesis chain is valid although its only block fails `Block.IsValid`. */
  lemma GenesisChainValid(digest: DigestFn, genesis: Block)
    requires genesis.IsGenesis()
    ensures ValidChain(digest, [genesis]) && !genesis.IsValid(digest)
  {
    GenesisNeverValid(digest, genesis);
  }

  /** Appending keeps a chain valid exactly when the new block links to the tail and verifies. */
  lemma ValidChainAppend(digest: DigestFn, blocks: seq<Block>, b: Block)
    requires |blocks| > 0
    ensures ValidChain(digest, blocks + [b]) <==>
      ValidChain(digest, blocks) && b.PrevHash == blocks[|blocks| - 1].Hash && b.IsValid(digest)
  {
    var extended := blocks + [b];
    assert forall i :: 1 <= i < |blocks| ==> (ValidAt(digest, extended, i) <==> ValidAt(digest, blocks, i));
    assert ValidAt(digest, extended, |blocks|) <==>
      b.PrevHash == blocks[|blocks| - 1].Hash && b.IsValid(digest);
  }

  /** Appending keeps a chain linked exactly when the new block extends it. */
  lemma LinkedAppend(blocks: seq<Block>, b: Block)
    ensures Linked(blocks + [b]) <==> Linked(blocks) && Extends(blocks, b)
  {
    var extended := blocks + [b];
    assert forall i :: 1 <= i < |blocks| ==> (LinkedAt(extended, i) <==> LinkedAt(blocks, i));
    if |blocks| > 0 {
      assert LinkedAt(extended, |blocks|) <==> Extends(blocks, b);
    }
  }

  /**
   * A linked block is no guarantee of a valid chain: appending a block that links to the
   * tail but whose hash is not its digest keeps the chain linked and makes it invalid.
   */
  lemma LinkedButInvalid(digest: DigestFn, blocks: seq<Block>, b: Block)
    requires |blocks| > 0 && Linked(blocks) && Extends(blocks, b) && !b.IsValid(digest)
    ensures Linked(blocks + [b]) && !ValidChain(digest, blocks + [b])
  {
    LinkedAppend(blocks, b);
    ValidChainAppend(digest, blocks, b);
  }
}
