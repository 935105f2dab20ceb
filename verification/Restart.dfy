/** Restarting a node does not change the leader schedule. */
module Restart {
  import opened Base
  import opened RdPoS
  import opened Node

  /** Rebuilds the consensus from the dumped validators, read back in any order, and the latest block in
      the store: the schedule is the one the running node had. */
  method Rebuild(node: FullNode, stored: seq<Address>) returns (d: Consensus)
    requires node.Synced()
    requires forall a :: a in stored <==> a in node.rdpos.Dump()
    ensures fresh(d) && d.Inv() && d.mempool == map[]
    ensures d.randomList == node.rdpos.randomList && d.validators == node.rdpos.validators
    ensures d.latestHeight == node.rdpos.latestHeight && d.bestRandomSeed == node.rdpos.bestRandomSeed
  {
    var latest := node.blocks.LoadLatest();
    InsertAllSorts([], stored);
    SortedUnique(InsertAll([], stored), node.rdpos.validators);
    d := new Consensus(
      node.rdpos.sha3, stored, node.rdpos.minValidators, latest.value.height, latest.value.randomness);
  }
}
