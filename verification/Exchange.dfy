/**
  What the syncer can ask of its surroundings: the local chain store and the chain-exchange client.
  Each is a partial view of the `Dag`, wrong answers excluded and missing answers allowed.
 */
module Exchange {
  import opened Prelude
  import opened Chain

  const FORK_LENGTH_THRESHOLD: nat := 900
  const MAX_REQUEST_LENGTH: nat := FORK_LENGTH_THRESHOLD

  /** `load` is LoadTipSet and `blocks` is GetBlocks; None stands for any error. */
  datatype View = View(load: Key -> Option<TipSet>, blocks: (Key, nat) -> Option<seq<TipSet>>) {

    /** LoadTipSet answers only with the tipset that was named. */
    ghost predicate LoadConforms(dag: Dag) {
      forall k: Key {:trigger load(k)} :: load(k).Some? ==> k in dag.tipsets && load(k).value == dag.tipsets[k]
    }

    /** GetBlocks answers with a non-empty linked segment that starts at the requested key. */
    ghost predicate BlocksConform(dag: Dag) {
      forall k: Key, n: nat {:trigger blocks(k, n)} :: blocks(k, n).Some? ==> Segment(dag, k, n, blocks(k, n).value)
    }

    ghost predicate Conforms(dag: Dag) {
      LoadConforms(dag) && BlocksConform(dag)
    }
  }

  ghost predicate Segment(dag: Dag, k: Key, n: nat, s: seq<TipSet>) {
    && 1 <= |s| <= n
    && s[0].key == k
    && AllIn(dag, s)
    && Linked(s)
  }

  /** A request through the client; lengths outside the protocol's range are refused before they are sent. */
  method GetBlocks(view: View, k: Key, count: nat) returns (r: Option<seq<TipSet>>)
    requires 1 <= count <= MAX_REQUEST_LENGTH
    ensures r == view.blocks(k, count)
  {
    r := view.blocks(k, count);
  }
}
