/**
 * A network node: its ledger, its list of peer addresses, the reconciliation loop of
 * `Sync`, and the decisions of the `POST /block` and `POST /register` handlers.  Network
 * transfers and JSON decoding are inputs: a decoded request body is an `Option`, and a
 * peer's chain as fetched and decoded is an `Option` per peer.
 */
module Network {

  import opened Wrappers
  import opened Blocks
  import opened Ledger
  import opened Reconciliation

  /** HTTP status codes the handlers answer with. */
  const StatusCreated: int := 201
  const StatusBadRequest: int := 400
  const StatusConflict: int := 409

  /** The body of `POST /register`. */
  datatype RegisterRequest = RegisterRequest(Address: string)

  /** No address occurs twice in the peer list. */
  predicate NoDuplicates(peers: seq<string>) {
    forall i, j :: 0 <= i < j < |peers| ==> peers[i] != peers[j]
  }

  class Node {
    const Chain: Blockchain
    var Peers: seq<string>

    /** `NewNode()`: a genesis-only chain and no peers. */
    constructor ()
      ensures fresh(Chain) && |Chain.Blocks| == 1
      ensures fresh(Chain.Blocks[0]) && Chain.Blocks[0].IsGenesis()
      ensures Peers == []
    {
      Chain := new Blockchain();
      Peers := [];
    }

    /** `AddPeer(peer)`: scan for the address and append it only when it is absent. */
    method AddPeer(peer: string)
      modifies this
      ensures Peers == if peer in old(Peers) then old(Peers) else old(Peers) + [peer]
      ensures NoDuplicates(old(Peers)) ==> NoDuplicates(Peers)
    {
      for i := 0 to |Peers|
        invariant forall j :: 0 <= j < i ==> Peers[j] != peer
      {
        if Peers[i] == peer {
          return;
        }
      }
      Peers := Peers + [peer];
    }

    /**
     * `Sync()`: `fetched[i]` is what fetching and decoding the chain of `Peers[i]` gave.
     * Each peer's chain replaces the local one when it is strictly longer; it is installed
     * as it came, without a validity check.
     */
    method Sync(fetched: seq<Option<seq<Block>>>)
      requires |fetched| == |Peers|
      modifies Chain
      ensures Chain.Blocks == Reconcile(old(Chain.Blocks), fetched)
      ensures |Chain.Blocks| >= |old(Chain.Blocks)| && Peers == old(Peers)
    {
      for i := 0 to |Peers|
        invariant Chain.Blocks == Reconcile(old(Chain.Blocks), fetched[..i])
      {
        assert fetched[..i + 1][..i] == fetched[..i];
        match fetched[i]
        case None =>
        case Some(peerBlocks) =>
          if |peerBlocks| > |Chain.Blocks| {
            Chain.Blocks := peerBlocks;
          }
      }
      assert fetched[..|fetched|] == fetched;
      ReconcileIsLongest(old(Chain.Blocks), fetched);
    }

    /**
     * `handleReceiveBlock`: an undecodable body is a bad request; a block that extends the
     * chain is appended as it came, without proof-of-work or digest check; any other
     * block is a bad request.
     */
    method HandleReceiveBlock(body: Option<Block>) returns (status: int)
      modifies Chain
      ensures body.None? ==> status == StatusBadRequest && Chain.Blocks == old(Chain.Blocks)
      ensures body.Some? && old(Extends(Chain.Blocks, body.value)) ==>
        status == StatusCreated && Chain.Blocks == old(Chain.Blocks) + [body.value]
      ensures body.Some? && !old(Extends(Chain.Blocks, body.value)) ==>
        status == StatusBadRequest && Chain.Blocks == old(Chain.Blocks)
      ensures old(Linked(Chain.Blocks)) ==> Linked(Chain.Blocks)
      ensures Peers == old(Peers)
    {
      if body.None? {
        return StatusBadRequest;
      }
      var block := body.value;
      var blocks := Chain.Blocks;
      if |blocks| == 0 || block.PrevHash == blocks[|blocks| - 1].Hash {
        LinkedAppend(blocks, block);
        Chain.Blocks := blocks + [block];
        status := StatusCreated;
      } else {
        status := StatusBadRequest;
      }
    }

    /**
     * `handleRegisterNode`: an undecodable body or an empty address is a bad request, an
     * address already listed is a conflict, and a new address is appended.
     */
    method HandleRegisterNode(body: Option<RegisterRequest>) returns (status: int)
      modifies this
      ensures body.None? || body.value.Address == "" ==>
        status == StatusBadRequest && Peers == old(Peers)
      ensures body.Some? && body.value.Address != "" && body.value.Address in old(Peers) ==>
        status == StatusConflict && Peers == old(Peers)
      ensures body.Some? && body.value.Address != "" && body.value.Address !in old(Peers) ==>
        status == StatusCreated && Peers == old(Peers) + [body.value.Address]
      ensures NoDuplicates(old(Peers)) ==> NoDuplicates(Peers)
    {
      if body.None? || body.value.Address == "" {
        return StatusBadRequest;
      }
      var address := body.value.Address;
      for i := 0 to |Peers|
        invariant forall j :: 0 <= j < i ==> Peers[j] != address
      {
        if Peers[i] == address {
          return StatusConflict;
        }
      }
      Peers := Peers + [address];
      status := StatusCreated;
    }
  }
}
