/**
 * The adoption rule of `Node.Sync`: peers are visited in order, and a successfully
 * fetched chain replaces the current one when it is strictly longer.  Length alone
 * decides; the candidate is never validated.
 */
module Reconciliation {

  import opened Wrappers

  /** One step: a failed fetch or decode keeps `current`; a longer candidate replaces it. */
  function Adopt<T>(current: seq<T>, fetched: Option<seq<T>>): seq<T> {
    match fetched
    case None => current
    case Some(candidate) => if |candidate| > |current| then candidate else current
  }

  /** The chain after visiting every fetch result in order, starting from `local`. */
  function Reconcile<T>(local: seq<T>, fetched: seq<Option<seq<T>>>): seq<T>
    decreases |fetched|
  {
    if fetched == [] then local
    else Adopt(Reconcile(local, fetched[..|fetched| - 1]), fetched[|fetched| - 1])
  }

  /**
   * The result is at least as long as the local chain and as every fetched candidate, and
   * it is the local chain or one of the candidates, installed verbatim: its length is the
   * maximum of all those lengths.
   */
  lemma {:induction false} ReconcileIsLongest<T>(local: seq<T>, fetched: seq<Option<seq<T>>>)
    ensures |Reconcile(local, fetched)| >= |local|
    ensures forall i :: 0 <= i < |fetched| && fetched[i].Some? ==>
      |fetched[i].value| <= |Reconcile(local, fetched)|
    ensures Reconcile(local, fetched) == local ||
      exists i :: 0 <= i < |fetched| && fetched[i] == Some(Reconcile(local, fetched))
  {
    if fetched != [] {
      var prefix := fetched[..|fetched| - 1];
      ReconcileIsLongest(local, prefix);
      assert forall i :: 0 <= i < |prefix| ==> prefix[i] == fetched[i];
    }
  }

  /** The local chain gives way only to a strictly longer one: ties keep it. */
  lemma {:induction false} ReplacedOnlyByLonger<T>(local: seq<T>, fetched: seq<Option<seq<T>>>)
    ensures Reconcile(local, fetched) != local ==> |Reconcile(local, fetched)| > |local|
  {
    if fetched != [] {
      ReplacedOnlyByLonger(local, fetched[..|fetched| - 1]);
    }
  }

  /** Against one peer: a strictly longer candidate is adopted, anything else is ignored. */
  lemma SinglePeer<T>(local: seq<T>, fetched: Option<seq<T>>)
    ensures Reconcile(local, [fetched]) ==
      if fetched.Some? && |fetched.value| > |local| then fetched.value else local
  {
    assert [fetched][..0] == [];
  }
}
