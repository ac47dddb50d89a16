/**
  Advancing the head: Sync, collectChain and switchChain, run by any number of workers at once.

  The log lists the blocks that passed validation, in the order in which they did; validated blocks are also what the
  chain store puts together to larger tipsets.  Everything rests on the log being grounded: a block enters it only
  after all blocks of its parent tipset.
 */
module Syncer {
  import opened Prelude
  import opened Chain
  import opened Exchange
  import opened ForkChoice
  import opened BadBlocks
  import opened Headers
  import opened Messages

  /** A genesis block, or one whose parent tipset exists and has been validated block by block. */
  ghost predicate Ready(dag: Dag, genesis: TipSet, before: seq<Cid>, c: Cid) {
    && c in dag.headers
    && (c in genesis.key || (dag.headers[c].parents in dag.tipsets && forall p :: p in dag.headers[c].parents ==> p in before))
  }

  ghost predicate Grounded(dag: Dag, genesis: TipSet, log: seq<Cid>) {
    forall i :: 0 <= i < |log| ==> Ready(dag, genesis, log[..i], log[i])
  }

  ghost predicate Validated(log: seq<Cid>, ts: TipSet) {
    forall c :: c in ts.key ==> c in log
  }

  ghost predicate ValidatedAfter(log: seq<Cid>, c: Cid, earlier: Key) {
    exists i :: 0 <= i < |log| && log[i] == c && forall p :: p in earlier ==> p in log[..i]
  }

  /** Every block of every tipset of a lineage was validated after all blocks of the next one. */
  ghost predicate ValidatedInOrder(log: seq<Cid>, lineage: seq<TipSet>) {
    && (forall n, c :: 0 <= n < |lineage| && c in lineage[n].key ==> c in log)
    && (forall n, c :: 0 <= n < |lineage| - 1 && c in lineage[n].key ==> ValidatedAfter(log, c, lineage[n].parents))
  }

  ghost predicate OfGenesis(genesis: TipSet, ts: TipSet) {
    forall c :: c in ts.key ==> c in genesis.key
  }

  lemma ReadyLater(dag: Dag, genesis: TipSet, log: seq<Cid>, i: nat, c: Cid)
    requires i <= |log| && Ready(dag, genesis, log[..i], c)
    ensures Ready(dag, genesis, log, c)
  {
  }

  lemma GroundedGrows(dag: Dag, genesis: TipSet, log: seq<Cid>, c: Cid)
    requires Grounded(dag, genesis, log) && Ready(dag, genesis, log, c)
    ensures Grounded(dag, genesis, log + [c])
  {
    var all := log + [c];
    forall i | 0 <= i < |all| ensures Ready(dag, genesis, all[..i], all[i]) {
      assert all[..i] == if i < |log| then log[..i] else log;
    }
  }

  /** A validated block has its parent tipset validated before it, unless it is a genesis block. */
  lemma BlockAfterParents(dag: Dag, genesis: TipSet, log: seq<Cid>, ts: TipSet, c: Cid)
    requires dag.Valid() && dag.Has(genesis) && !dag.HasParent(genesis) && Grounded(dag, genesis, log)
    requires dag.Has(ts) && c in ts.key && c in log
    ensures dag.HasParent(ts) ==> ValidatedAfter(log, c, ts.parents)
    ensures !dag.HasParent(ts) ==> c in genesis.key
  {
    var i :| 0 <= i < |log| && log[i] == c;
    assert Ready(dag, genesis, log[..i], log[i]);
    assert dag.ValidTipSet(ts.key) && dag.ValidTipSet(genesis.key);
    var j :| 0 <= j < |ts.key| && ts.key[j] == c;
    assert dag.headers[c].parents == ts.parents;
    if c in genesis.key {
      var k :| 0 <= k < |genesis.key| && genesis.key[k] == c;
      assert dag.headers[c].parents == genesis.parents;
    }
  }

  lemma ParentValidated(dag: Dag, genesis: TipSet, log: seq<Cid>, ts: TipSet)
    requires dag.Valid() && dag.Has(genesis) && !dag.HasParent(genesis) && Grounded(dag, genesis, log)
    requires dag.Has(ts) && Validated(log, ts) && dag.HasParent(ts)
    ensures dag.Has(dag.Parent(ts)) && Validated(log, dag.Parent(ts))
  {
    ParentIsLower(dag, ts);
    assert dag.ValidTipSet(ts.key);
    assert ts.key[0] in ts.key;
    BlockAfterParents(dag, genesis, log, ts, ts.key[0]);
  }

  /** A validated tipset has its whole ancestry validated, in order, back to genesis blocks. */
  lemma {:induction false} AncestryValidated(dag: Dag, genesis: TipSet, log: seq<Cid>, ts: TipSet)
    requires dag.Valid() && dag.Has(genesis) && !dag.HasParent(genesis) && Grounded(dag, genesis, log)
    requires dag.Has(ts) && Validated(log, ts)
    ensures ValidatedInOrder(log, Lineage(dag, ts))
    ensures OfGenesis(genesis, Lineage(dag, ts)[|Lineage(dag, ts)| - 1])
    decreases ts.height + 1
  {
    forall c | c in ts.key
      ensures (dag.HasParent(ts) ==> ValidatedAfter(log, c, ts.parents)) && (!dag.HasParent(ts) ==> c in genesis.key)
    {
      BlockAfterParents(dag, genesis, log, ts, c);
    }
    if dag.HasParent(ts) {
      ParentIsLower(dag, ts);
      ParentValidated(dag, genesis, log, ts);
      AncestryValidated(dag, genesis, log, dag.Parent(ts));
      InOrderCons(log, ts, Lineage(dag, dag.Parent(ts)));
    }
  }

  lemma InOrderCons(log: seq<Cid>, ts: TipSet, rest: seq<TipSet>)
    requires Validated(log, ts) && ValidatedInOrder(log, rest) && |rest| > 0
    requires forall c :: c in ts.key ==> ValidatedAfter(log, c, ts.parents)
    ensures ValidatedInOrder(log, [ts] + rest)
  {
    var all := [ts] + rest;
    forall n, c | 0 <= n < |all| - 1 && c in all[n].key ensures ValidatedAfter(log, c, all[n].parents) {
      if n > 0 { assert all[n] == rest[n - 1]; }
    }
    forall n, c | 0 <= n < |all| && c in all[n].key ensures c in log {
      if n > 0 { assert all[n] == rest[n - 1]; }
    }
  }

  lemma AncestorIsValidated(dag: Dag, genesis: TipSet, log: seq<Cid>, ts: TipSet, x: TipSet)
    requires dag.Valid() && dag.Has(genesis) && !dag.HasParent(genesis) && Grounded(dag, genesis, log)
    requires dag.Has(ts) && Validated(log, ts) && x in Lineage(dag, ts)
    ensures Validated(log, x)
  {
    AncestryValidated(dag, genesis, log, ts);
    var n :| 0 <= n < |Lineage(dag, ts)| && Lineage(dag, ts)[n] == x;
  }

  // Replaying collected headers ----------------------------------------------------------------------------------

  /** The header due next, once the `done` oldest headers of a collected list are validated. */
  function Due(headers: seq<TipSet>, done: nat): TipSet
    requires done < |headers|
  {
    headers[|headers| - 1 - done]
  }

  ghost predicate DoneValidated(headers: seq<TipSet>, done: nat, log: seq<Cid>) {
    && done <= |headers|
    && forall j :: |headers| - done <= j < |headers| ==> Validated(log, headers[j])
  }

  /** The tipset that a due header builds on is validated, or the header is so itself. */
  lemma DueIsFounded(dag: Dag, genesis: TipSet, log: seq<Cid>, incoming: TipSet, known: TipSet, checkpoint: Option<TipSet>,
                     headers: seq<TipSet>, walked: nat, drop: nat, done: nat)
    requires dag.Valid() && dag.Has(genesis) && !dag.HasParent(genesis) && Grounded(dag, genesis, log)
    requires dag.Has(known) && Validated(log, known) && Collected(dag, incoming, known, checkpoint, headers, walked, drop)
    requires done < |headers| && DoneValidated(headers, done, log)
    ensures var ts := Due(headers, done);
      dag.Has(ts) && (Validated(log, ts) || (dag.HasParent(ts) && Validated(log, dag.Parent(ts))))
  {
    var ts := Due(headers, done);
    assert dag.Has(ts);
    if done > 0 {
      assert ts.IsChildOf(headers[|headers| - done]) && dag.Has(headers[|headers| - done]);
    } else if walked < |headers| {
      var fragment := headers[walked..];
      assert ts == fragment[|fragment| - 1] && Lineage(dag, known)[drop] == ts;
      AncestorIsValidated(dag, genesis, log, known, ts);
    } else if !ts.IsChildOf(known) {
      ParentValidated(dag, genesis, log, known);
    }
  }

  /** Validating collected headers oldest first keeps the log grounded, however the list joined our chain. */
  lemma DueIsReady(dag: Dag, genesis: TipSet, log: seq<Cid>, ts: TipSet, c: Cid)
    requires dag.Valid() && Grounded(dag, genesis, log) && dag.Has(ts) && c in ts.key
    requires Validated(log, ts) || (dag.HasParent(ts) && Validated(log, dag.Parent(ts)))
    ensures Ready(dag, genesis, log, c)
  {
    assert dag.ValidTipSet(ts.key);
    var j :| 0 <= j < |ts.key| && ts.key[j] == c;
    assert dag.headers[c].parents == ts.parents;
    if c in log {
      var i :| 0 <= i < |log| && log[i] == c;
      assert Ready(dag, genesis, log[..i], log[i]);
      ReadyLater(dag, genesis, log, i, c);
    } else {
      assert dag.ValidTipSet(ts.parents);
    }
  }

  // Concurrent workers ------------------------------------------------------------------------------------------

  /** A sync in progress: the head it started from, then the headers it collected and how many of them are validated. */
  datatype Worker =
    | Collecting(known: TipSet)
    | Replaying(known: TipSet, target: TipSet, checkpoint: Option<TipSet>, headers: seq<TipSet>, walked: nat, drop: nat, done: nat)

  datatype State = State(log: seq<Cid>, head: TipSet, workers: map<nat, Worker>)

  datatype Step =
    | Start(id: nat)
    | Begin(id: nat, worker: Worker)
    | Validate(id: nat, block: Cid)
    | Advance(id: nat)
    | Abort(id: nat)
    | Commit(id: nat, head: TipSet)

  /** What the store may make of a synced tipset: validated blocks with its parents and height, put together anew. */
  ghost predicate Expands(dag: Dag, log: seq<Cid>, target: TipSet, head: TipSet) {
    dag.Has(head) && head.parents == target.parents && head.height == target.height && Validated(log, head)
  }

  ghost predicate Replays(s: State, id: nat) {
    id in s.workers && s.workers[id].Replaying? && s.workers[id].done < |s.workers[id].headers|
  }

  /** PutTipSet and SetHead are reached only by a worker that has validated all of its headers. */
  ghost predicate Enabled(dag: Dag, s: State, step: Step)
    requires dag.Valid()
  {
    match step
    case Start(id) => id !in s.workers
    case Begin(id, w) =>
      && id in s.workers && s.workers[id].Collecting? && w.Replaying?
      && w.known == s.workers[id].known && w.done == 0 && dag.Has(w.known)
      && Collected(dag, w.target, w.known, w.checkpoint, w.headers, w.walked, w.drop)
    case Validate(id, c) => Replays(s, id) && c in Due(s.workers[id].headers, s.workers[id].done).key
    case Advance(id) => Replays(s, id) && Validated(s.log, Due(s.workers[id].headers, s.workers[id].done))
    case Abort(id) => id in s.workers
    case Commit(id, head) =>
      && id in s.workers && s.workers[id].Replaying? && s.workers[id].done == |s.workers[id].headers|
      && (head == s.head || Expands(dag, s.log, s.workers[id].target, head))
  }

  ghost function Next(dag: Dag, s: State, step: Step): State
    requires dag.Valid() && Enabled(dag, s, step)
  {
    match step
    case Start(id) => s.(workers := s.workers[id := Collecting(s.head)])
    case Begin(id, w) => s.(workers := s.workers[id := w])
    case Validate(id, c) => s.(log := s.log + [c])
    case Advance(id) => s.(workers := s.workers[id := s.workers[id].(done := s.workers[id].done + 1)])
    case Abort(id) => s.(workers := s.workers - {id})
    case Commit(id, head) => s.(head := head, workers := s.workers - {id})
  }

  ghost predicate WorkerInv(dag: Dag, log: seq<Cid>, w: Worker)
    requires dag.Valid()
  {
    && dag.Has(w.known) && Validated(log, w.known)
    && (w.Replaying? ==>
          && Collected(dag, w.target, w.known, w.checkpoint, w.headers, w.walked, w.drop)
          && DoneValidated(w.headers, w.done, log))
  }

  ghost predicate Inv(dag: Dag, genesis: TipSet, s: State)
    requires dag.Valid()
  {
    && Grounded(dag, genesis, s.log)
    && dag.Has(s.head) && Validated(s.log, s.head)
    && forall id :: id in s.workers ==> WorkerInv(dag, s.log, s.workers[id])
  }

  lemma WorkerInvGrows(dag: Dag, log: seq<Cid>, c: Cid, w: Worker)
    requires dag.Valid() && WorkerInv(dag, log, w)
    ensures WorkerInv(dag, log + [c], w)
  {
    if w.Replaying? {
      forall j | |w.headers| - w.done <= j < |w.headers| ensures Validated(log + [c], w.headers[j]) { assert Validated(log, w.headers[j]); }
    }
  }

  lemma ValidateKeepsInv(dag: Dag, genesis: TipSet, s: State, id: nat, c: Cid)
    requires dag.Valid() && dag.Has(genesis) && !dag.HasParent(genesis) && Inv(dag, genesis, s) && Enabled(dag, s, Validate(id, c))
    ensures Inv(dag, genesis, Next(dag, s, Validate(id, c)))
  {
    var w := s.workers[id];
    assert WorkerInv(dag, s.log, w);
    DueIsFounded(dag, genesis, s.log, w.target, w.known, w.checkpoint, w.headers, w.walked, w.drop, w.done);
    DueIsReady(dag, genesis, s.log, Due(w.headers, w.done), c);
    GroundedGrows(dag, genesis, s.log, c);
    forall other | other in s.workers ensures WorkerInv(dag, s.log + [c], s.workers[other]) {
      WorkerInvGrows(dag, s.log, c, s.workers[other]);
    }
  }

  lemma AdvanceKeepsInv(dag: Dag, genesis: TipSet, s: State, id: nat)
    requires dag.Valid() && Inv(dag, genesis, s) && Enabled(dag, s, Advance(id))
    ensures Inv(dag, genesis, Next(dag, s, Advance(id)))
  {
    var s', w := Next(dag, s, Advance(id)), s.workers[id];
    assert WorkerInv(dag, s.log, w);
    forall j | |w.headers| - (w.done + 1) <= j < |w.headers| ensures Validated(s.log, w.headers[j]) {
      if j == |w.headers| - (w.done + 1) { assert w.headers[j] == Due(w.headers, w.done); }
    }
    forall other | other in s'.workers ensures WorkerInv(dag, s'.log, s'.workers[other]) {
      if other != id { assert WorkerInv(dag, s.log, s.workers[other]); }
    }
  }

  lemma StepKeepsInv(dag: Dag, genesis: TipSet, s: State, step: Step)
    requires dag.Valid() && dag.Has(genesis) && !dag.HasParent(genesis) && Inv(dag, genesis, s) && Enabled(dag, s, step)
    ensures Inv(dag, genesis, Next(dag, s, step))
  {
    match step
    case Validate(id, c) => ValidateKeepsInv(dag, genesis, s, id, c);
    case Advance(id) => AdvanceKeepsInv(dag, genesis, s, id);
    case Begin(id, w) => assert WorkerInv(dag, s.log, s.workers[id]) && WorkerInv(dag, s.log, w);
    case Start(_) =>
    case Abort(_) =>
    case Commit(_, _) =>
  }

  /** Every run starts from the genesis. */
  ghost predicate Run(dag: Dag, genesis: TipSet, states: seq<State>, steps: seq<Step>)
    requires dag.Valid()
  {
    && |states| == |steps| + 1
    && states[0] == State(genesis.key, genesis, map[])
    && forall n :: 0 <= n < |steps| ==> Enabled(dag, states[n], steps[n]) && states[n + 1] == Next(dag, states[n], steps[n])
  }

  lemma InitialInv(dag: Dag, genesis: TipSet)
    requires dag.Valid() && dag.Has(genesis)
    ensures Inv(dag, genesis, State(genesis.key, genesis, map[]))
  {
    assert dag.ValidTipSet(genesis.key);
  }

  lemma {:induction false} RunKeepsInv(dag: Dag, genesis: TipSet, states: seq<State>, steps: seq<Step>, n: nat)
    requires dag.Valid() && dag.Has(genesis) && !dag.HasParent(genesis) && Run(dag, genesis, states, steps) && n <= |steps|
    ensures Inv(dag, genesis, states[n])
    decreases n
  {
    if n == 0 {
      InitialInv(dag, genesis);
    } else {
      RunKeepsInv(dag, genesis, states, steps, n - 1);
      StepKeepsInv(dag, genesis, states[n - 1], steps[n - 1]);
    }
  }

  /**
    In every state of every run, with tipsets expanded by the store or not, the whole ancestry of the head is
    validated, every block after all blocks of its parent tipset, back to genesis blocks.
   */
  lemma HeadAlwaysValidated(dag: Dag, genesis: TipSet, states: seq<State>, steps: seq<Step>, n: nat)
    requires dag.Valid() && dag.Has(genesis) && !dag.HasParent(genesis) && Run(dag, genesis, states, steps) && n <= |steps|
    ensures dag.Has(states[n].head) && ValidatedInOrder(states[n].log, Lineage(dag, states[n].head))
    ensures OfGenesis(genesis, Lineage(dag, states[n].head)[|Lineage(dag, states[n].head)| - 1])
  {
    RunKeepsInv(dag, genesis, states, steps, n);
    AncestryValidated(dag, genesis, states[n].log, states[n].head);
  }

  /** The same holds for whatever a worker hands to PutTipSet or SetHead, whether or not the store takes it. */
  lemma CommittedTargetValidated(dag: Dag, genesis: TipSet, states: seq<State>, steps: seq<Step>, n: nat)
    requires dag.Valid() && dag.Has(genesis) && !dag.HasParent(genesis) && Run(dag, genesis, states, steps)
    requires n < |steps| && steps[n].Commit?
    ensures var target := states[n].workers[steps[n].id].target;
      dag.Has(target) && ValidatedInOrder(states[n].log, Lineage(dag, target))
  {
    RunKeepsInv(dag, genesis, states, steps, n);
    var w := states[n].workers[steps[n].id];
    assert WorkerInv(dag, states[n].log, w);
    assert w.headers[0] == w.target && Validated(states[n].log, w.headers[0]);
    AncestryValidated(dag, genesis, states[n].log, w.target);
  }

  ghost predicate Reachable(dag: Dag, genesis: TipSet, s: State)
    requires dag.Valid()
  {
    exists states: seq<State>, steps: seq<Step> :: Run(dag, genesis, states, steps) && states[|steps|] == s
  }

  lemma InitialReachable(dag: Dag, genesis: TipSet)
    requires dag.Valid()
    ensures Reachable(dag, genesis, State(genesis.key, genesis, map[]))
  {
    assert Run(dag, genesis, [State(genesis.key, genesis, map[])], []);
  }

  lemma ReachableStep(dag: Dag, genesis: TipSet, s: State, step: Step)
    requires dag.Valid() && Reachable(dag, genesis, s) && Enabled(dag, s, step)
    ensures Reachable(dag, genesis, Next(dag, s, step))
  {
    var states: seq<State>, steps: seq<Step> :| Run(dag, genesis, states, steps) && states[|steps|] == s;
    var states', steps' := states + [Next(dag, s, step)], steps + [step];
    forall n | 0 <= n < |steps'| ensures Enabled(dag, states'[n], steps'[n]) && states'[n + 1] == Next(dag, states'[n], steps'[n]) {
      if n < |steps| { assert states'[n] == states[n] && states'[n + 1] == states[n + 1] && steps'[n] == steps[n]; }
    }
    assert Run(dag, genesis, states', steps');
  }

  lemma ReachableInv(dag: Dag, genesis: TipSet, s: State)
    requires dag.Valid() && dag.Has(genesis) && !dag.HasParent(genesis) && Reachable(dag, genesis, s)
    ensures Inv(dag, genesis, s)
  {
    var states: seq<State>, steps: seq<Step> :| Run(dag, genesis, states, steps) && states[|steps|] == s;
    RunKeepsInv(dag, genesis, states, steps, |steps|);
  }

  // One worker's calls -------------------------------------------------------------------------------------------

  datatype Verdict = Valid | Temporal | Permanent

  /** What a sync needs besides headers: local messages, peers for the rest, and the consensus rules. */
  datatype Supply = Supply(root: Root, fill: TipSet -> Filling, peers: Peers, order: nat -> seq<nat>,
                           persist: Compacted -> bool, verdict: FullBlock -> Verdict)

  predicate IsGenesis(genesis: TipSet, fts: FullTipSet) {
    |fts.blocks| == |genesis.blocks| && forall i :: 0 <= i < |fts.blocks| ==> fts.blocks[i].header == genesis.blocks[i]
  }

  /** ValidateTipSet succeeds on the genesis, and otherwise when every block does. */
  predicate Passes(genesis: TipSet, verdict: FullBlock -> Verdict, fts: FullTipSet) {
    IsGenesis(genesis, fts) || forall i :: 0 <= i < |fts.blocks| ==> verdict(fts.blocks[i]).Valid?
  }

  function FeedOf(genesis: TipSet, supply: Supply): Feed {
    Feed(supply.root, supply.fill, supply.peers, supply.order, fts => Passes(genesis, supply.verdict, fts), supply.persist)
  }

  /** The store's choice after PutTipSet: None to keep its head, or a tipset of tracked blocks made from the synced one. */
  type Choice = (TipSet, set<Cid>) -> Option<TipSet>

  ghost predicate ChoiceConforms(dag: Dag, choice: Choice) {
    forall ts: TipSet, tracked: set<Cid> {:trigger choice(ts, tracked)} ::
      choice(ts, tracked).Some? ==>
        var h := choice(ts, tracked).value;
        dag.Has(h) && h.parents == ts.parents && h.height == ts.height && forall c :: c in h.key ==> c in tracked
  }

  datatype SyncFailure = HeadersFailed(headers: HeaderError) | ReplayFailed(outcome: Outcome)

  /** The replay of some headers stopped with an outcome, for its reason, and left the marks that it leaves. */
  ghost predicate ReplayStopped(feed: Feed, headers: seq<TipSet>, outcome: Outcome, verdict: FullBlock -> Verdict,
                                before: map<Cid, Reason>, after: map<Cid, Reason>)
    requires feed.Conforms()
  {
    && !outcome.Done?
    && exists delivered ::
         && Replayed(feed, headers, delivered) && Explained(feed, headers, outcome, delivered)
         && ReplayMarks(verdict, outcome, delivered, before, after)
  }

  ghost predicate ReplayMarks(verdict: FullBlock -> Verdict, outcome: Outcome, delivered: seq<FullTipSet>,
                              before: map<Cid, Reason>, after: map<Cid, Reason>)
  {
    if outcome.CallbackFailed? then delivered != [] && InvalidMarked(verdict, delivered[|delivered| - 1], before, after)
    else after == before
  }

  ghost predicate FailedIn(verdict: FullBlock -> Verdict, fts: FullTipSet, n: nat, c: Cid)
    requires n <= |fts.blocks|
  {
    exists i :: 0 <= i < n && verdict(fts.blocks[i]).Permanent? && fts.blocks[i].header.cid == c
  }

  /** Exactly the blocks among the first ones that failed for good are marked, each as its own cause. */
  ghost predicate InvalidUpTo(verdict: FullBlock -> Verdict, fts: FullTipSet, n: nat, before: map<Cid, Reason>, after: map<Cid, Reason>)
    requires n <= |fts.blocks|
  {
    && (forall c :: c in after <==> c in before || FailedIn(verdict, fts, n, c))
    && (forall c :: c in after ==> after[c] == if FailedIn(verdict, fts, n, c) then Reason("invalid block", [c], None) else before[c])
  }

  ghost predicate InvalidMarked(verdict: FullBlock -> Verdict, fts: FullTipSet, before: map<Cid, Reason>, after: map<Cid, Reason>) {
    InvalidUpTo(verdict, fts, |fts.blocks|, before, after)
  }

  lemma InvalidStep(verdict: FullBlock -> Verdict, fts: FullTipSet, n: nat, before: map<Cid, Reason>, after: map<Cid, Reason>)
    requires n < |fts.blocks| && InvalidUpTo(verdict, fts, n, before, after)
    ensures var c := fts.blocks[n].header.cid;
      InvalidUpTo(verdict, fts, n + 1, before, if verdict(fts.blocks[n]).Permanent? then after[c := Reason("invalid block", [c], None)] else after)
  {
    var c := fts.blocks[n].header.cid;
    forall x ensures FailedIn(verdict, fts, n + 1, x) <==> FailedIn(verdict, fts, n, x) || (verdict(fts.blocks[n]).Permanent? && x == c) {
      if verdict(fts.blocks[n]).Permanent? && x == c { assert fts.blocks[n].header.cid == x; }
    }
  }

  /** What collecting the headers behind ts may have given: a clean list from ts to where it joins our chain. */
  ghost predicate CollectedBehind(dag: Dag, entries: map<Cid, Reason>, ts: TipSet, known: TipSet, guard: Option<TipSet>, headers: seq<TipSet>)
    requires dag.Valid() && dag.Has(known)
  {
    exists walked: nat, drop: nat :: Collected(dag, ts, known, guard, headers, walked, drop) && Clean(entries, headers, walked)
  }

  lemma WorkerReplaced(workers: map<nat, Worker>, a: Worker, b: Worker)
    ensures workers[0 := a][0 := b] == workers[0 := b] && workers[0 := a] - {0} == workers - {0}
  {
  }

  /** The state with the worker a number of tipsets further, and the log that long. */
  ghost function AdvancedTo(before: State, w: Worker, done: nat, log: seq<Cid>): State
    requires w.Replaying?
  {
    State(log, before.head, before.workers[0 := w.(done := done)])
  }

  lemma NoWorker(workers: map<nat, Worker>)
    requires 0 !in workers
    ensures workers - {0} == workers
  {
  }

  class ChainSyncer {
    const genesis: TipSet
    const bad: BadBlockCache
    ghost const dag: Dag
    var head: TipSet
    var checkpoint: Option<TipSet>
    /** The store's tipset tracker. */
    var tracker: set<Cid>
    /** Where the protocol stands; the calls of this object are worker 0. */
    ghost var state: State

    ghost predicate Follows()
      reads this, bad
    {
      && dag.Valid() && dag.Has(genesis) && !dag.HasParent(genesis)
      && Reachable(dag, genesis, state) && state.head == head && dag.Has(head)
      && (forall c :: c in tracker ==> c in state.log)
      && bad.Valid(dag)
    }

    /** Between calls the worker is idle. */
    ghost predicate Valid()
      reads this, bad
    {
      Follows() && 0 !in state.workers
    }

    constructor (genesis: TipSet, ghost dag: Dag)
      requires dag.Valid() && dag.Has(genesis) && !dag.HasParent(genesis)
      ensures Valid() && fresh(bad) && head == genesis && checkpoint == None && this.genesis == genesis && this.dag == dag
    {
      InitialReachable(dag, genesis);
      this.genesis := genesis;
      this.dag := dag;
      this.bad := new BadBlockCache();
      head, checkpoint, tracker := genesis, None, {};
      state := State(genesis.key, genesis, map[]);
    }

    ghost method Take(step: Step)
      requires dag.Valid() && Reachable(dag, genesis, state) && Enabled(dag, state, step)
      modifies this`state
      ensures state == Next(dag, old(state), step) && Reachable(dag, genesis, state)
    {
      ReachableStep(dag, genesis, state, step);
      state := Next(dag, state, step);
    }

    ghost method StartWorker()
      requires Valid()
      modifies this`state
      ensures Follows() && state == old(state).(workers := old(state.workers)[0 := Collecting(head)])
    {
      Take(Start(0));
    }

    ghost method BeginReplay(w: Worker)
      requires Follows() && 0 in state.workers && Enabled(dag, state, Begin(0, w))
      modifies this`state
      ensures Follows() && state == old(state).(workers := old(state.workers)[0 := w])
    {
      Take(Begin(0, w));
    }

    ghost method AdvanceWorker(w: Worker)
      requires Follows() && Working(w) && Validated(state.log, Due(w.headers, w.done))
      modifies this`state
      ensures Follows() && state == old(state).(workers := old(state.workers)[0 := w.(done := w.done + 1)])
    {
      Take(Advance(0));
    }

    ghost method AbortWorker()
      requires Follows() && 0 in state.workers
      modifies this`state
      ensures Valid() && state == old(state).(workers := old(state.workers) - {0})
    {
      Take(Abort(0));
    }

    /** A block that failed validation for good is marked; a temporary failure leaves no mark. */
    method MarkInvalid(verdict: FullBlock -> Verdict, fts: FullTipSet)
      requires dag.Valid() && bad.Valid(dag)
      modifies bad
      ensures bad.Valid(dag) && old(bad.marks) <= bad.marks
      ensures InvalidMarked(verdict, fts, old(bad.entries), bad.entries)
    {
      for n := 0 to |fts.blocks|
        invariant bad.Valid(dag) && old(bad.marks) <= bad.marks
        invariant InvalidUpTo(verdict, fts, n, old(bad.entries), bad.entries)
      {
        var c := fts.blocks[n].header.cid;
        InvalidStep(verdict, fts, n, old(bad.entries), bad.entries);
        if verdict(fts.blocks[n]).Permanent? {
          bad.AddFirstCause(dag, c, [c], "invalid block");
        }
      }
    }

    /** A replay that ended with a rejected tipset marks its blocks; no other outcome marks anything. */
    method MarkRejected(verdict: FullBlock -> Verdict, outcome: Outcome, delivered: seq<FullTipSet>)
      requires dag.Valid() && bad.Valid(dag) && (outcome.CallbackFailed? ==> delivered != [])
      modifies bad
      ensures bad.Valid(dag) && old(bad.marks) <= bad.marks
      ensures ReplayMarks(verdict, outcome, delivered, old(bad.entries), bad.entries)
    {
      if outcome.CallbackFailed? { MarkInvalid(verdict, delivered[|delivered| - 1]); }
    }

    ghost predicate Working(w: Worker)
      reads this
    {
      w.Replaying? && w.done < |w.headers| && 0 in state.workers && state.workers[0] == w
    }

    /** One block of the due tipset is validated; genesis blocks are not tracked. */
    method Track(c: Cid, tracked: bool, ghost w: Worker)
      requires Follows() && Working(w) && c in Due(w.headers, w.done).key
      modifies this`state, this`tracker
      ensures Follows() && state == old(state).(log := old(state.log) + [c])
      ensures tracker == old(tracker) + if tracked then {c} else {}
    {
      Take(Validate(0, c));
      if tracked { tracker := tracker + {c}; }
    }

    /** The first blocks of the due tipset have been looked at. */
    ghost predicate TrackedTo(from: State, known: set<Cid>, verdict: FullBlock -> Verdict, fts: FullTipSet, n: nat)
      requires n <= |fts.blocks|
      reads this
    {
      && state == from.(log := from.log + Passing(genesis, verdict, fts, n))
      && tracker == known + Tracked(genesis, verdict, fts, n)
    }

    method TrackOne(verdict: FullBlock -> Verdict, fts: FullTipSet, n: nat, ghost w: Worker, ghost from: State, ghost known: set<Cid>)
      requires Follows() && Working(w) && Named(fts, Due(w.headers, w.done)) && n < |fts.blocks| && TrackedTo(from, known, verdict, fts, n)
      modifies this`state, this`tracker
      ensures Follows() && Working(w) && TrackedTo(from, known, verdict, fts, n + 1)
    {
      assert Due(w.headers, w.done).key[n] in Due(w.headers, w.done).key;
      TrackedStep(genesis, verdict, fts, n);
      if PassesAt(genesis, verdict, fts, n) {
        Track(fts.blocks[n].header.cid, !IsGenesis(genesis, fts), w);
      }
    }

    /** The blocks of the due tipset that pass are validated and tracked, whether or not the others do. */
    method TrackBlocks(verdict: FullBlock -> Verdict, fts: FullTipSet, ghost w: Worker)
      requires Follows() && Working(w) && Named(fts, Due(w.headers, w.done))
      modifies this`state, this`tracker
      ensures Follows() && state == old(state).(log := old(state.log) + Passing(genesis, verdict, fts, |fts.blocks|))
      ensures tracker == old(tracker) + Tracked(genesis, verdict, fts, |fts.blocks|)
      ensures Passes(genesis, verdict, fts) ==> Validated(state.log, Due(w.headers, w.done))
    {
      assert old(state.log) + [] == old(state.log);
      for n := 0 to |fts.blocks|
        invariant Follows() && Working(w) && TrackedTo(old(state), old(tracker), verdict, fts, n)
      {
        TrackOne(verdict, fts, n, w, old(state), old(tracker));
      }
      if Passes(genesis, verdict, fts) { AllPassing(genesis, verdict, fts, Due(w.headers, w.done)); }
    }

    /** Tipset after tipset as it was delivered; all but perhaps the last passed. */
    method TrackReplay(verdict: FullBlock -> Verdict, delivered: seq<FullTipSet>, ghost w: Worker) returns (passed: nat)
      requires Follows() && 0 in state.workers && state.workers[0] == w && w.Replaying? && w.done == 0
      requires AllIn(dag, w.headers) && Delivered(genesis, verdict, delivered, w.headers)
      modifies this`state, this`tracker
      ensures passed == if delivered != [] && !Passes(genesis, verdict, delivered[|delivered| - 1]) then |delivered| - 1 else |delivered|
      ensures Follows() && old(state.log) <= state.log
      ensures state == State(state.log, old(state.head), old(state.workers)[0 := w.(done := passed)])
    {
      passed := 0;
      assert old(state.workers)[0 := w] == old(state.workers);
      for k := 0 to |delivered|
        invariant Follows() && old(state.log) <= state.log && passed == k
        invariant k > 0 ==> Passes(genesis, verdict, delivered[k - 1])
        invariant state == AdvancedTo(old(state), w, k, state.log)
      {
        FilledIsNamed(dag, delivered[k], Due(w.headers, k));
        var ok := TrackTipSet(verdict, delivered[k], old(state), w, k);
        if !ok { return; }
        passed := passed + 1;
      }
    }

    /** One tipset; the worker goes on only if all of it passes. */
    method TrackTipSet(verdict: FullBlock -> Verdict, fts: FullTipSet, ghost before: State, ghost w: Worker, ghost k: nat) returns (ok: bool)
      requires Follows() && w.Replaying? && k < |w.headers| && state == AdvancedTo(before, w, k, state.log) && Named(fts, Due(w.headers, k))
      modifies this`state, this`tracker
      ensures Follows() && ok == Passes(genesis, verdict, fts) && old(state.log) <= state.log
      ensures state == AdvancedTo(before, w, if ok then k + 1 else k, state.log)
    {
      TrackBlocks(verdict, fts, w.(done := k));
      ok := Passes(genesis, verdict, fts);
      if ok {
        WorkerReplaced(before.workers, w.(done := k), w.(done := k + 1));
        AdvanceWorker(w.(done := k));
      }
    }

    /** A sync fails only because the headers could not be collected or their replay stopped, each for its reason. */
    ghost predicate Excused(view: View, supply: Supply, entries: map<Cid, Reason>, ts: TipSet, known: TipSet,
                            guard: Option<TipSet>, failure: SyncFailure, after: map<Cid, Reason>)
      requires dag.Valid() && dag.Has(ts) && dag.Has(known) && view.Conforms(dag) && FeedOf(genesis, supply).Conforms()
    {
      match failure
      case HeadersFailed(e) => Blocked(dag, view, entries, ts, known, guard, e) && MarksOf(view, ts, known, e, entries, after)
      case ReplayFailed(o) =>
        exists headers ::
          && CollectedBehind(dag, entries, ts, known, guard, headers)
          && ReplayStopped(FeedOf(genesis, supply), headers, o, supply.verdict, entries, after)
    }

    /** The worker has validated everything down from a tipset. */
    ghost predicate Synced(ts: TipSet)
      reads this
    {
      && 0 in state.workers && state.workers[0].Replaying? && state.workers[0].target == ts
      && state.workers[0].done == |state.workers[0].headers|
    }

    /** Collects and replays the chain behind ts: a Begin and, as far as the replay goes, the steps that validate it. */
    method CollectChain(view: View, supply: Supply, ts: TipSet, ignoreCheckpoint: bool) returns (failure: Option<SyncFailure>)
      requires Valid() && dag.Has(ts) && ts != head && view.Conforms(dag) && FeedOf(genesis, supply).Conforms()
      modifies this`state, this`tracker, bad
      ensures Follows() && old(state.log) <= state.log && old(bad.marks) <= bad.marks
      ensures state.workers - {0} == old(state.workers)
      ensures failure.None? ==> Synced(ts) && bad.entries == old(bad.entries)
      ensures failure.Some? ==> 0 !in state.workers
      ensures failure.Some? ==>
        Excused(view, supply, old(bad.entries), ts, head, if ignoreCheckpoint then None else checkpoint, failure.value, bad.entries)
    {
      var headers;
      ghost var w;
      headers, w := BeginChain(view, ts, ignoreCheckpoint);
      NoWorker(old(state.workers));
      if headers.Err? { return Some(HeadersFailed(headers.error)); }
      WorkerReplaced(old(state.workers), w, w);
      failure := ReplayHeaders(supply, headers.value, w);
    }

    /** The first half: the headers are collected against the head as it is now. */
    method BeginChain(view: View, ts: TipSet, ignoreCheckpoint: bool) returns (headers: Result<seq<TipSet>, HeaderError>, ghost w: Worker)
      requires Valid() && dag.Has(ts) && ts != head && view.Conforms(dag)
      modifies this`state, bad
      ensures Follows() && state.log == old(state.log) && old(bad.marks) <= bad.marks
      ensures headers.Err? ==>
        && state == old(state) && Blocked(dag, view, old(bad.entries), ts, head, if ignoreCheckpoint then None else checkpoint, headers.error)
        && MarksOf(view, ts, head, headers.error, old(bad.entries), bad.entries)
      ensures headers.Ok? ==> bad.entries == old(bad.entries)
      ensures headers.Ok? ==>
        && w.Replaying? && w.target == ts && w.done == 0 && w.headers == headers.value && AllIn(dag, w.headers)
        && state == old(state).(workers := old(state.workers)[0 := w])
        && CollectedBehind(dag, old(bad.entries), ts, head, if ignoreCheckpoint then None else checkpoint, headers.value)
    {
      ghost var before := state;
      WorkerReplaced(before.workers, Collecting(head), Collecting(head));
      NoWorker(before.workers);
      StartWorker();
      ghost var walked, drop;
      headers, walked, drop := CollectHeaders(dag, view, bad, ts, head, checkpoint, ignoreCheckpoint);
      w := Collecting(head);
      if headers.Err? {
        AbortWorker();
        return;
      }
      w := Replaying(head, ts, if ignoreCheckpoint then None else checkpoint, headers.value, walked, drop, 0);
      WorkerReplaced(before.workers, Collecting(head), w);
      BeginReplay(w);
    }

    /** The second half: the collected headers are filled, validated and, where they pass, tracked. */
    method ReplayHeaders(supply: Supply, headers: seq<TipSet>, ghost w: Worker) returns (failure: Option<SyncFailure>)
      requires Follows() && FeedOf(genesis, supply).Conforms()
      requires 0 in state.workers && state.workers[0] == w && w.Replaying? && w.done == 0 && w.headers == headers && AllIn(dag, headers)
      modifies this`state, this`tracker, bad
      ensures Follows() && old(state.log) <= state.log && old(bad.marks) <= bad.marks
      ensures state.workers - {0} == old(state.workers) - {0}
      ensures failure.None? ==> Synced(w.target) && bad.entries == old(bad.entries)
      ensures failure.Some? ==>
        && 0 !in state.workers && failure.value.ReplayFailed?
        && ReplayStopped(FeedOf(genesis, supply), headers, failure.value.outcome, supply.verdict, old(bad.entries), bad.entries)
    {
      var outcome, delivered := ReplayFeed(genesis, supply, headers);
      var passed := TrackReplay(supply.verdict, delivered, w);
      WorkerReplaced(old(state.workers), w.(done := passed), w);
      MarkRejected(supply.verdict, outcome, delivered);
      if outcome.Done? { return None; }
      AbortWorker();
      return Some(ReplayFailed(outcome));
    }

    /** A fully replayed target may be committed: as it is, or expanded by the store. */
    ghost method CommitSynced(ts: TipSet, installed: TipSet)
      requires Follows() && Synced(ts) && (installed == state.head || Expands(dag, state.log, ts, installed))
      modifies this`state
      ensures Reachable(dag, genesis, state)
      ensures state == State(old(state.log), installed, old(state.workers) - {0})
    {
      Take(Commit(0, installed));
    }

    /** On success the target is validated, and the head is what the store made of it or what it was. */
    method Sync(view: View, supply: Supply, maybeHead: TipSet, choice: Choice) returns (failure: Option<SyncFailure>)
      requires Valid() && dag.Has(maybeHead) && view.Conforms(dag) && FeedOf(genesis, supply).Conforms() && ChoiceConforms(dag, choice)
      modifies this`state, this`head, this`tracker, bad
      ensures Valid() && Validated(state.log, head) && old(state.log) <= state.log
      ensures state.workers == old(state.workers)
      ensures var skip := old(head).weight > maybeHead.weight || maybeHead == genesis || maybeHead == old(head);
        && (skip ==> failure.None? && state == old(state) && head == old(head))
        && (!skip && failure.None? ==>
              && Validated(state.log, maybeHead)
              && head == if choice(maybeHead, tracker).Some? then choice(maybeHead, tracker).value else old(head))
      ensures failure.Some? ==>
        && head == old(head)
        && Excused(view, supply, old(bad.entries), maybeHead, head, checkpoint, failure.value, bad.entries)
      ensures failure.None? ==> bad.entries == old(bad.entries)
    {
      ReachableInv(dag, genesis, state);
      if head.weight > maybeHead.weight { return None; }
      if genesis == maybeHead || head == maybeHead { return None; }
      failure := CollectChain(view, supply, maybeHead, false);
      ReachableInv(dag, genesis, state);
      if failure.Some? {
        NoWorker(state.workers);
        return;
      }
      Install(maybeHead, choice);
    }

    /** PutTipSet: the store takes what it makes of the target, or keeps its head. */
    method Install(ts: TipSet, choice: Choice)
      requires Follows() && Synced(ts) && ChoiceConforms(dag, choice)
      modifies this`state, this`head
      ensures Valid() && Validated(state.log, head) && Validated(state.log, ts)
      ensures state == State(old(state.log), head, old(state.workers) - {0})
      ensures head == if choice(ts, tracker).Some? then choice(ts, tracker).value else old(head)
    {
      SyncedIsValidated(dag, genesis, state);
      ReachableInv(dag, genesis, state);
      var taken := choice(ts, tracker);
      CommitSynced(ts, if taken.Some? then taken.value else head);
      if taken.Some? { head := taken.value; }
    }

    /** `ancestor` is the answer of IsAncestorOf, which may be cut short by a missing tipset. */
    method SwitchChain(view: View, supply: Supply, ts: TipSet, ancestor: bool) returns (ok: bool)
      requires Valid() && dag.Has(ts) && view.Conforms(dag) && FeedOf(genesis, supply).Conforms()
      requires ancestor ==> ts in Lineage(dag, head)
      modifies this, bad
      ensures Valid() && old(state.log) <= state.log && state.workers == old(state.workers)
      ensures ok ==> Validated(state.log, ts) && ts in Lineage(dag, head)
      ensures ancestor || ts == old(head) ==> ok && head == old(head) && state == old(state)
      ensures ok && !ancestor && ts != old(head) ==> head == ts && checkpoint == None
      ensures !ok ==> head == old(head) && checkpoint == old(checkpoint)
      ensures !ok ==> !ancestor && exists failure :: Excused(view, supply, old(bad.entries), ts, head, None, failure, bad.entries)
      ensures head == old(head) ==> checkpoint == old(checkpoint)
      ensures head == old(head) || head == ts
    {
      ReachableInv(dag, genesis, state);
      if head == ts { return true; }
      if ancestor {
        AncestorIsValidated(dag, genesis, state.log, head, ts);
        return true;
      }
      var failure := CollectChain(view, supply, ts, true);
      if failure.Some? {
        NoWorker(state.workers);
        return false;
      }
      SyncedIsValidated(dag, genesis, state);
      CommitSynced(ts, ts);
      head := ts;
      checkpoint := None;
      return true;
    }

    /**
      Why no checkpoint is set: the tipset cannot be had, its chain cannot be synced, it is too far back, or the store
      does not find it below the head.
     */
    ghost predicate NoCheckpoint(view: View, supply: Supply, tsk: Key, confirmed: bool, entries: map<Cid, Reason>, before: TipSet)
      requires dag.Valid() && dag.Has(before) && view.Conforms(dag) && FeedOf(genesis, supply).Conforms()
      reads this, bad
    {
      || tsk == []
      || (view.load(tsk).None? && view.blocks(tsk, 1).None?)
      || (tsk in dag.tipsets && dag.Has(dag.tipsets[tsk]) &&
          var ts := dag.tipsets[tsk];
          || (exists failure :: Excused(view, supply, entries, ts, before, None, failure, bad.entries))
          || head.height - ts.height > FORK_LENGTH_THRESHOLD
          || (ts != head && !confirmed))
    }

    /**
      A checkpoint is set only on a validated tipset of the chain that is then ours, and not further back than the
      fork threshold. `confirmed` is what IsAncestorOf answers to the store.
     */
    method SyncCheckpoint(view: View, supply: Supply, tsk: Key, ancestor: bool, confirmed: bool) returns (ok: bool)
      requires Valid() && view.Conforms(dag) && FeedOf(genesis, supply).Conforms()
      requires ancestor && tsk in dag.tipsets ==> dag.tipsets[tsk] in Lineage(dag, head)
      modifies this, bad
      ensures Valid() && old(state.log) <= state.log
      ensures tsk == [] ==> !ok
      ensures ok ==> checkpoint.Some? && checkpoint.value.key == tsk && Validated(state.log, checkpoint.value)
      ensures ok ==> checkpoint.value in Lineage(dag, head) && 0 <= head.height - checkpoint.value.height <= FORK_LENGTH_THRESHOLD
      ensures ok ==> confirmed || checkpoint.value == head
      ensures !ok ==> checkpoint == None || checkpoint == old(checkpoint)
      ensures !ok ==> NoCheckpoint(view, supply, tsk, confirmed, old(bad.entries), old(head))
    {
      if tsk == [] { return false; }
      var ts := view.load(tsk);
      if ts.None? {
        var tss := GetBlocks(view, tsk, 1);
        if tss.None? || |tss.value| != 1 { return false; }
        assert dag.Has(tss.value[0]);
        ts := Some(tss.value[0]);
      }
      assert dag.ValidTipSet(tsk);
      ok := SwitchChain(view, supply, ts.value, ancestor);
      if !ok { return; }
      AncestorIsLower(dag, head, ts.value);
      if ts.value.height > head.height { return false; }
      if head.height - ts.value.height > FORK_LENGTH_THRESHOLD { return false; }
      if ts.value != head && !confirmed { return false; }
      checkpoint := ts;
    }
  }

  lemma SyncedIsValidated(dag: Dag, genesis: TipSet, s: State)
    requires dag.Valid() && dag.Has(genesis) && !dag.HasParent(genesis) && Reachable(dag, genesis, s)
    requires 0 in s.workers && s.workers[0].Replaying? && s.workers[0].done == |s.workers[0].headers|
    ensures dag.Has(s.workers[0].target) && Validated(s.log, s.workers[0].target)
  {
    ReachableInv(dag, genesis, s);
    var w := s.workers[0];
    assert WorkerInv(dag, s.log, w);
    assert w.headers[0] == w.target && Validated(s.log, w.headers[0]);
  }

  lemma AncestorIsLower(dag: Dag, ts: TipSet, x: TipSet)
    requires dag.Valid() && dag.Has(ts) && x in Lineage(dag, ts)
    ensures x.height <= ts.height
  {
    LineageShape(dag, ts);
    var n :| 0 <= n < |Lineage(dag, ts)| && Lineage(dag, ts)[n] == x;
    if n > 0 { HeightsFall(Lineage(dag, ts), 0, n); }
  }

  ghost predicate Delivered(genesis: TipSet, verdict: FullBlock -> Verdict, delivered: seq<FullTipSet>, headers: seq<TipSet>) {
    && |delivered| <= |headers|
    && (forall k :: 0 <= k < |delivered| ==> delivered[k].Fills(Due(headers, k)))
    && (forall k :: 0 <= k < |delivered| - 1 ==> Passes(genesis, verdict, delivered[k]))
  }

  method ReplayFeed(genesis: TipSet, supply: Supply, headers: seq<TipSet>) returns (outcome: Outcome, delivered: seq<FullTipSet>)
    requires FeedOf(genesis, supply).Conforms()
    ensures Delivered(genesis, supply.verdict, delivered, headers)
    ensures outcome.CallbackFailed? ==> delivered != []
    ensures Replayed(FeedOf(genesis, supply), headers, delivered) && Explained(FeedOf(genesis, supply), headers, outcome, delivered)
    ensures outcome.Done? ==> |delivered| == |headers| && forall k :: 0 <= k < |delivered| ==> Passes(genesis, supply.verdict, delivered[k])
  {
    var feed := FeedOf(genesis, supply);
    outcome, delivered := IterFullTipsets(feed, headers);
    forall k | 0 <= k < |delivered| ensures delivered[k].Fills(Due(headers, k)) {
      assert Supplied(feed, headers, |headers| - 1 - k, delivered[k]);
    }
  }

  predicate PassesAt(genesis: TipSet, verdict: FullBlock -> Verdict, fts: FullTipSet, n: nat)
    requires n < |fts.blocks|
  {
    IsGenesis(genesis, fts) || verdict(fts.blocks[n]).Valid?
  }

  /** The blocks that pass, among the first ones of a tipset. */
  ghost function Passing(genesis: TipSet, verdict: FullBlock -> Verdict, fts: FullTipSet, n: nat): seq<Cid>
    requires n <= |fts.blocks|
  {
    if n == 0 then []
    else
      Passing(genesis, verdict, fts, n - 1) + if PassesAt(genesis, verdict, fts, n - 1) then [fts.blocks[n - 1].header.cid] else []
  }

  /** Those of them that the store keeps track of: all but the genesis. */
  ghost function Tracked(genesis: TipSet, verdict: FullBlock -> Verdict, fts: FullTipSet, n: nat): set<Cid>
    requires n <= |fts.blocks|
  {
    if IsGenesis(genesis, fts) then {} else set c | c in Passing(genesis, verdict, fts, n)
  }

  lemma TrackedStep(genesis: TipSet, verdict: FullBlock -> Verdict, fts: FullTipSet, n: nat)
    requires n < |fts.blocks|
    ensures Tracked(genesis, verdict, fts, n + 1) == Tracked(genesis, verdict, fts, n) +
      if PassesAt(genesis, verdict, fts, n) && !IsGenesis(genesis, fts) then {fts.blocks[n].header.cid} else {}
  {
  }

  /** A block is among them exactly when it passes. */
  lemma {:induction false} PassingExactly(genesis: TipSet, verdict: FullBlock -> Verdict, fts: FullTipSet, n: nat, c: Cid)
    requires n <= |fts.blocks|
    ensures c in Passing(genesis, verdict, fts, n) <==>
      exists m :: 0 <= m < n && fts.blocks[m].header.cid == c && (fts.Fills(genesis) || verdict(fts.blocks[m]).Valid?)
    decreases n
  {
    if n > 0 { PassingExactly(genesis, verdict, fts, n - 1, c); }
  }

  /** A tipset passes exactly when none of its blocks is missing among those that pass. */
  lemma {:induction false} PassesIffAll(genesis: TipSet, verdict: FullBlock -> Verdict, fts: FullTipSet)
    ensures Passes(genesis, verdict, fts) <==> |Passing(genesis, verdict, fts, |fts.blocks|)| == |fts.blocks|
  {
    PassingCounts(genesis, verdict, fts, |fts.blocks|);
  }

  lemma {:induction false} PassingCounts(genesis: TipSet, verdict: FullBlock -> Verdict, fts: FullTipSet, n: nat)
    requires n <= |fts.blocks|
    ensures |Passing(genesis, verdict, fts, n)| <= n
    ensures |Passing(genesis, verdict, fts, n)| == n <==> forall m :: 0 <= m < n ==> fts.Fills(genesis) || verdict(fts.blocks[m]).Valid?
    decreases n
  {
    if n > 0 { PassingCounts(genesis, verdict, fts, n - 1); }
  }

  lemma AllPassing(genesis: TipSet, verdict: FullBlock -> Verdict, fts: FullTipSet, ts: TipSet)
    requires Passes(genesis, verdict, fts) && Named(fts, ts)
    ensures forall c :: c in ts.key ==> c in Passing(genesis, verdict, fts, |fts.blocks|)
  {
    forall c | c in ts.key ensures c in Passing(genesis, verdict, fts, |fts.blocks|) {
      var m :| 0 <= m < |ts.key| && ts.key[m] == c;
      assert fts.blocks[m].header.cid == c && PassesAt(genesis, verdict, fts, m);
      PassingExactly(genesis, verdict, fts, |fts.blocks|, c);
    }
  }

  /** A full tipset's blocks carry the names in the tipset's key. */
  ghost predicate Named(fts: FullTipSet, ts: TipSet) {
    |fts.blocks| == |ts.key| && forall i :: 0 <= i < |ts.key| ==> fts.blocks[i].header.cid == ts.key[i]
  }

  lemma FilledIsNamed(dag: Dag, fts: FullTipSet, ts: TipSet)
    requires dag.Valid() && dag.Has(ts) && fts.Fills(ts)
    ensures Named(fts, ts)
  {
    assert dag.ValidTipSet(ts.key);
    forall i | 0 <= i < |ts.key| ensures fts.blocks[i].header.cid == ts.key[i] { assert dag.ValidHeader(ts.key[i]); }
  }
}
