/** The code of the autobatching blockstore, section by section a run of the protocol in Autobatch. */
module AutobatchStore {
  import opened Prelude
  import opened Autobatch

  /** How many blocks a write stores, and whether it fails: `failAfter` is how many it stores before it fails, if it does. */
  ghost predicate Fails(failAfter: Option<nat>, blocks: seq<Block>) {
    failAfter.Some? && failAfter.value <= |blocks|
  }

  ghost function Wrote(failAfter: Option<nat>, blocks: seq<Block>): seq<Block> {
    if Fails(failAfter, blocks) then blocks[..failAfter.value] else blocks
  }

  /** A store with blocks added one after another. */
  ghost function Stored(backing: map<Cid, Block>, blocks: seq<Block>): map<Cid, Block> {
    if blocks == [] then backing else Stored(backing, blocks[..|blocks| - 1])[blocks[|blocks| - 1].cid := blocks[|blocks| - 1]]
  }

  lemma {:induction false} AllStored(backing: map<Cid, Block>, blocks: seq<Block>)
    requires forall i, j :: 0 <= i < j < |blocks| ==> blocks[i].cid != blocks[j].cid
    ensures forall b :: b in blocks ==> b.cid in Stored(backing, blocks) && Stored(backing, blocks)[b.cid] == b
    decreases |blocks|
  {
    if blocks != [] {
      var rest, last := blocks[..|blocks| - 1], blocks[|blocks| - 1];
      AllStored(backing, rest);
      forall b | b in blocks ensures b.cid in Stored(backing, blocks) && Stored(backing, blocks)[b.cid] == b {
        var i :| 0 <= i < |blocks| && blocks[i] == b;
        if i < |rest| { assert rest[i] == b && b.cid != last.cid; }
      }
    }
  }

  /** Each method is a sequence of the protocol's steps: `state` is where the protocol stands after them. */
  class AutobatchBlockstore {
    var addedCids: set<Cid>
    var bufferedBatch: Batch
    var flushingBatch: Batch
    var flushErr: bool
    var backingBs: map<Cid, Block>
    ghost const original: map<Cid, Block>
    ghost var state: State

    ghost predicate Follows()
      reads this
    {
      && state.added == addedCids
      && state.buffered == bufferedBatch
      && state.flushing == flushingBatch
      && state.failed == flushErr
      && state.backing == backingBs
      && state.holder.None?
      && Reachable(original, state)
    }

    /** Between calls no flush is under way. */
    ghost predicate Valid()
      reads this
    {
      Follows() && state.flusher.Idle?
    }

    constructor (backing: map<Cid, Block>)
      ensures Valid() && state.puts == [] && backingBs == backing && original == backing
    {
      addedCids := {};
      bufferedBatch := EMPTY;
      flushingBatch := EMPTY;
      flushErr := false;
      backingBs := backing;
      original := backing;
      state := State({}, EMPTY, EMPTY, false, backing, Idle, None, map[], [], map[], []);
      new;
      var states, steps: seq<Step> := [state], [];
      assert Run(states, steps) && states[|steps|] == state;
    }

    ghost method Advance(step: Step)
      requires Reachable(original, state) && Enabled(state, step)
      modifies this`state
      ensures state == Next(old(state), step) && Reachable(original, state)
    {
      ReachableStep(original, state, step);
      state := Next(state, step);
    }

    method Put(blk: Block)
      requires Valid()
      modifies this
      ensures Valid() && state.puts == old(state.puts) + [blk]
      ensures state.Order() == Firsts(old(state.puts) + [blk])
      ensures backingBs == old(backingBs)
    {
      if blk.cid !in addedCids {
        addedCids := addedCids + {blk.cid};
        bufferedBatch := Batch(bufferedBatch.list + [blk], bufferedBatch.byCid[blk.cid := blk]);
      }
      Advance(Step.Put(blk));
      ReachableInv(original, state);
    }

    /** PutMany on the backing store, which may fail after any number of blocks. */
    method PutMany(failAfter: Option<nat>) returns (err: bool)
      requires Follows() && state.Writing()
      modifies this`backingBs, this`state
      ensures Follows() && state == old(state).(backing := backingBs)
      ensures err <==> Fails(failAfter, flushingBatch.list)
      ensures backingBs == Stored(old(backingBs), Wrote(failAfter, flushingBatch.list))
      ensures !err ==> state.Stored()
    {
      FlushingAgrees(original, state);
      ghost var before := state;
      var blks := flushingBatch.list;
      for n := 0 to |blks|
        invariant Follows() && state == before.(backing := backingBs)
        invariant backingBs == Stored(before.backing, blks[..n]) && (failAfter.Some? ==> failAfter.value >= n)
      {
        if failAfter == Some(n) { return true; }
        assert blks[..n + 1][..n] == blks[..n];
        PutOne(blks[n]);
      }
      assert blks[..|blks|] == blks;
      AllStored(before.backing, blks);
      return failAfter.Some? && failAfter.value == |blks|;
    }

    method PutOne(blk: Block)
      requires Follows() && state.Writing() && blk in flushingBatch.list && flushingBatch.Agrees()
      modifies this`backingBs, this`state
      ensures Follows() && backingBs == old(backingBs)[blk.cid := blk] && state == old(state).(backing := backingBs)
    {
      backingBs := backingBs[blk.cid := blk];
      Advance(Store(blk.cid));
    }

    /** The retry of a failed flush. */
    method RetryFlush(failAfter: Option<nat>)
      requires Follows() && state.flusher.Locked? && !state.flusher.tried
      modifies this
      ensures Follows() && state.flusher.Locked? && !state.Writing() && state.flusher.retryOnly == old(state.flusher.retryOnly)
      ensures state.puts == old(state.puts) && (!old(flushErr) ==> state == old(state))
      ensures flushErr <==> old(flushErr) && Fails(failAfter, old(flushingBatch.list))
      ensures backingBs == if old(flushErr) then Stored(old(backingBs), Wrote(failAfter, flushingBatch.list)) else old(backingBs)
      ensures flushingBatch == old(flushingBatch) && bufferedBatch == old(bufferedBatch) && addedCids == old(addedCids)
    {
      if flushErr {
        flushErr := PutMany(failAfter);
        Advance(EndRetry(!flushErr));
      }
    }

    /** Takes the buffered batch and tries to flush it. */
    method FlushBuffer(failAfter: Option<nat>)
      requires Follows() && state.flusher.Locked? && !state.Writing() && !state.flusher.retryOnly && !flushErr
      modifies this
      ensures Valid() && state.puts == old(state.puts)
      ensures !flushErr ==> forall b :: b in Firsts(state.puts) ==> b.cid in backingBs && backingBs[b.cid] == b
      ensures flushErr <==> Fails(failAfter, old(bufferedBatch.list))
      ensures backingBs == Stored(old(backingBs), Wrote(failAfter, old(bufferedBatch.list)))
      ensures bufferedBatch == EMPTY && flushingBatch == (if flushErr then old(bufferedBatch) else EMPTY) && addedCids == old(addedCids)
    {
      flushingBatch := bufferedBatch;
      bufferedBatch := EMPTY;
      Advance(Take);
      flushErr := PutMany(failAfter);
      Advance(EndWrite(!flushErr));
      if !flushErr {
        WrittenMeansStored(original, state);
        flushingBatch := EMPTY;
      }
      Advance(Finish);
    }

    /** A flush that is not only a retry and returns no error leaves every block put so far in the backing store. */
    method DoFlush(retryOnly: bool, retryFails: Option<nat>, writeFails: Option<nat>) returns (err: bool)
      requires Valid()
      modifies this
      ensures Valid() && state.puts == old(state.puts) && err == flushErr
      ensures state.Order() == old(state.Order())
      ensures err <==>
        || (old(flushErr) && Fails(retryFails, old(flushingBatch.list)))
        || (!retryOnly && Fails(writeFails, old(bufferedBatch.list)))
      ensures !err && !retryOnly ==> forall b :: IsFirst(state.puts, b) ==> b.cid in backingBs && backingBs[b.cid] == b
    {
      ReachableInv(original, state);
      Advance(Lock(retryOnly));
      RetryFlush(retryFails);
      if retryOnly || flushErr {
        Advance(Bail);
        ReachableInv(original, state);
        return flushErr;
      }
      FlushBuffer(writeFails);
      ReachableInv(original, state);
      forall b | IsFirst(state.puts, b) ensures b in Firsts(state.puts) { FirstsAreFirst(state.puts, b); }
      return flushErr;
    }

    /** A block that was put is found, and it is the first one put under its CID. */
    method Get(c: Cid) returns (blk: Block)
      requires Valid() && c in addedCids
      ensures (c in original && blk == original[c]) || (blk.cid == c && IsFirst(state.puts, blk))
    {
      ReachableInv(original, state);
      FirstsAreFirst(state.puts, state.first[c]);
      if c in backingBs { return backingBs[c]; }
      if c in flushingBatch.byCid { return flushingBatch.byCid[c]; }
      if c in bufferedBatch.byCid { return bufferedBatch.byCid[c]; }
      PutIsSomewhere(original, state, c);
      assert false;
    }
  }
}
