/**
  The sync scheduler: one event loop that turns peer heads, finished workers and a ticker into sync workers.

  Iteration over the active workers is in no particular order, as in the source; the buckets of related candidates
  and the two circular buffers are in SyncBuckets and Ring.
 */
module SyncManager {
  import opened Prelude
  import opened Chain
  import opened SyncBuckets
  import opened Ring

  const RECENT_SYNC_BUFFER_SIZE := 10
  const MAX_SYNC_WORKERS := 5
  const SYNC_WORKER_HISTORY := 3

  type Peer = nat

  datatype Worker = Worker(id: nat, ts: TipSet)

  /**
    What was the case when a worker was spawned: how many syncs had succeeded and the last of them, and `contested`
    when a peer's head got it next to running workers.
   */
  datatype Spawn = Spawn(id: nat, target: TipSet, syncs: nat, recent: seq<TipSet>, contested: bool,
                         active: map<nat, Worker>, pending: seq<Bucket>)

  /** Different from and at least as heavy as every one of a list of tipsets. */
  ghost predicate Outweighs(ts: TipSet, others: seq<TipSet>) {
    forall r :: r in others ==> r != ts && r.weight <= ts.weight
  }

  ghost predicate OutweighsActive(ts: TipSet, active: map<nat, Worker>) {
    forall id :: id in active ==> active[id].ts.weight <= ts.weight
  }

  ghost predicate UnrelatedToActive(ts: TipSet, active: map<nat, Worker>) {
    forall id :: id in active ==> ts != active[id].ts && ts.parents != active[id].ts.key
  }

  ghost predicate OutweighsPending(ts: TipSet, pending: seq<Bucket>) {
    forall p :: Represents(pending, p) ==> p.weight <= ts.weight
  }

  /** A pending tipset may follow the one just done unless that, an active sync or a recent one is heavier. */
  ghost predicate MayFollow(done: TipSet, ts: TipSet, active: map<nat, Worker>, recent: seq<TipSet>) {
    done.weight <= ts.weight && OutweighsActive(ts, active) && Outweighs(ts, recent)
  }

  // Deferred candidates ------------------------------------------------------------------------------------------

  /** What one active worker makes of a candidate: it is dropped, becomes pending, or is taken. */
  ghost predicate JudgedBy(worker: TipSet, ts: TipSet, pending: seq<Bucket>, pending': seq<Bucket>, take: bool) {
    if worker == ts || worker.weight > ts.weight then !take && pending' == pending
    else if ts.parents == worker.key then !take && pending' == Inserted(pending, ts)
    else take && pending' == pending
  }

  /** What becomes of a deferred candidate; only one of the active workers is asked, whichever it is. */
  ghost predicate Considered(ts: TipSet, recent: seq<TipSet>, active: map<nat, Worker>, pending: seq<Bucket>, pending': seq<Bucket>, take: bool) {
    if !Outweighs(ts, recent) then !take && pending' == pending
    else if AnyRelated(pending, ts) then !take && pending' == Inserted(pending, ts)
    else if active == map[] then !take && pending' == pending
    else exists id :: id in active && JudgedBy(active[id].ts, ts, pending, pending', take)
  }

  /** A candidate that is taken whichever worker is asked. */
  ghost predicate MustTake(ts: TipSet, recent: seq<TipSet>, active: map<nat, Worker>, pending: seq<Bucket>) {
    Outweighs(ts, recent) && !AnyRelated(pending, ts) && active != map[] && OutweighsActive(ts, active) && UnrelatedToActive(ts, active)
  }

  ghost predicate PassedOver(b: Bucket, recent: seq<TipSet>, active: map<nat, Worker>, pending: seq<Bucket>) {
    exists h :: FirstHeavy(b, h) && !MustTake(h, recent, active, pending)
  }

  /** Worth syncing, measured against one active worker. */
  ghost predicate Worth(ts: TipSet, recent: seq<TipSet>, active: map<nat, Worker>) {
    && Outweighs(ts, recent)
    && exists id :: id in active && active[id].ts != ts && active[id].ts.weight <= ts.weight && ts.parents != active[id].ts.key
  }

  /**
    A choice among the deferred buckets, from the heaviest down: the ones that are gone were passed over, but for the
    target's; the target outweighs all that are left, and there is none only when none are left.
   */
  ghost predicate Chosen(recent: seq<TipSet>, active: map<nat, Worker>, before: seq<Bucket>, after: seq<Bucket>, pending': seq<Bucket>, target: Option<TipSet>) {
    && (forall i :: 0 <= i < |before| ==>
          before[i] in after || PassedOver(before[i], recent, active, pending') || (target.Some? && FirstHeavy(before[i], target.value)))
    && (target.None? ==> after == [])
    && (target.Some? ==>
          && Worth(target.value, recent, active)
          && (exists i :: 0 <= i < |before| && FirstHeavy(before[i], target.value))
          && OutweighsPending(target.value, after))
  }

  /** What follows a finished sync: its heaviest pending relative if that may, and otherwise a choice among the deferred. */
  ghost predicate SelectedNext(done: TipSet, recent: seq<TipSet>, active: map<nat, Worker>, pending: seq<Bucket>, deferred: seq<Bucket>,
                               pending': seq<Bucket>, deferred': seq<Bucket>, target: Option<TipSet>)
  {
    if AnyRelated(pending, done) then
      exists h :: FirstHeavy(Gather(pending, done), h) &&
        if MayFollow(done, h, active, recent) then target == Some(h) && deferred' == deferred && pending' == Keep(pending, done)
        else Chosen(recent, active, deferred, deferred', pending', target)
    else Chosen(recent, active, deferred, deferred', pending', target)
  }

  lemma TakenWhenItMust(ts: TipSet, recent: seq<TipSet>, active: map<nat, Worker>, pending: seq<Bucket>, pending': seq<Bucket>, take: bool)
    requires Considered(ts, recent, active, pending, pending', take)
    ensures MustTake(ts, recent, active, pending) ==> take
    ensures take ==> Worth(ts, recent, active)
    ensures forall h :: MustTake(h, recent, active, pending') ==> MustTake(h, recent, active, pending)
  {
    forall h | MustTake(h, recent, active, pending') ensures MustTake(h, recent, active, pending) {
      if pending' != pending && AnyRelated(pending, h) { InsertedKeepsRelated(pending, ts, h); }
    }
  }

  /** While deferred buckets are popped: each is still there or was passed over. */
  ghost predicate Choosing(recent: seq<TipSet>, active: map<nat, Worker>, before: seq<Bucket>, now: seq<Bucket>, pending: seq<Bucket>) {
    && (forall i :: 0 <= i < |before| ==> before[i] in now || PassedOver(before[i], recent, active, pending))
    && SubBuckets(now, before)
  }

  /** One bucket is popped and its heaviest tipset considered. */
  lemma ChoosingStep(recent: seq<TipSet>, active: map<nat, Worker>, before: seq<Bucket>, now: seq<Bucket>, at: nat, h: TipSet,
                     pending: seq<Bucket>, pending': seq<Bucket>, take: bool)
    requires Choosing(recent, active, before, now, pending) && at < |now| && FirstHeavy(now[at], h)
    requires Considered(h, recent, active, pending, pending', take)
    requires forall u :: Represents(now, u) ==> u.weight <= h.weight
    ensures var now' := now[..at] + now[at + 1..];
      && (!take ==> Choosing(recent, active, before, now', pending'))
      && (take ==> Chosen(recent, active, before, now', pending', Some(h)))
  {
    TakenWhenItMust(h, recent, active, pending, pending', take);
    ChoosingRest(recent, active, before, now, at, pending, pending');
    assert now[at] in before;
  }

  lemma ChoosingRest(recent: seq<TipSet>, active: map<nat, Worker>, before: seq<Bucket>, now: seq<Bucket>, at: nat,
                     pending: seq<Bucket>, pending': seq<Bucket>)
    requires Choosing(recent, active, before, now, pending) && at < |now|
    requires forall h :: MustTake(h, recent, active, pending') ==> MustTake(h, recent, active, pending)
    ensures var now' := now[..at] + now[at + 1..];
      && (forall i :: 0 <= i < |before| && before[i] != now[at] ==> before[i] in now' || PassedOver(before[i], recent, active, pending'))
      && SubBuckets(now', before) && (forall u :: Represents(now', u) ==> Represents(now, u))
  {
    var now' := now[..at] + now[at + 1..];
    forall i | 0 <= i < |before| && before[i] != now[at] ensures before[i] in now' || PassedOver(before[i], recent, active, pending') {
      if before[i] in now { StillThere(now, at, before[i]); } else { StillPassed(before[i], recent, active, pending, pending'); }
    }
    RestIsLess(now, at, before);
  }

  lemma RestIsLess(now: seq<Bucket>, at: nat, before: seq<Bucket>)
    requires at < |now| && SubBuckets(now, before)
    ensures var now' := now[..at] + now[at + 1..];
      SubBuckets(now', before) && forall u :: Represents(now', u) ==> Represents(now, u)
  {
    var now' := now[..at] + now[at + 1..];
    forall j | 0 <= j < |now'| ensures now'[j] in now && now'[j] in before { assert now'[j] == if j < at then now[j] else now[j + 1]; }
    forall u | Represents(now', u) ensures Represents(now, u) {
      var j :| 0 <= j < |now'| && u in now'[j];
      var i :| 0 <= i < |now| && now[i] == now'[j];
    }
  }

  lemma StillThere(now: seq<Bucket>, at: nat, b: Bucket)
    requires at < |now| && b in now && b != now[at]
    ensures b in now[..at] + now[at + 1..]
  {
    var j :| 0 <= j < |now| && now[j] == b;
    assert (now[..at] + now[at + 1..])[if j < at then j else j - 1] == b;
  }

  lemma StillPassed(b: Bucket, recent: seq<TipSet>, active: map<nat, Worker>, pending: seq<Bucket>, pending': seq<Bucket>)
    requires PassedOver(b, recent, active, pending)
    requires forall h :: MustTake(h, recent, active, pending') ==> MustTake(h, recent, active, pending)
    ensures PassedOver(b, recent, active, pending')
  {
  }

  /** The rule every spawn follows. */
  ghost predicate Fair(s: Spawn) {
    && Outweighs(s.target, s.recent)
    && (s.contested ==>
          && OutweighsActive(s.target, s.active)
          && UnrelatedToActive(s.target, s.active)
          && OutweighsPending(s.target, s.pending)
          && !AnyRelated(s.pending, s.target))
  }

  /** The record of spawns: one after another, each fair, and its recent syncs the last ones of the record of syncs. */
  ghost predicate Ledger(spawned: seq<Spawn>, synced: seq<TipSet>) {
    forall i :: 0 <= i < |spawned| ==> spawned[i].id == i && Fair(spawned[i]) && OnRecord(spawned[i], synced)
  }

  ghost predicate OnRecord(s: Spawn, synced: seq<TipSet>) {
    s.syncs <= |synced| && s.recent == LastN(synced[..s.syncs], RECENT_SYNC_BUFFER_SIZE)
  }

  lemma LedgerSyncs(spawned: seq<Spawn>, synced: seq<TipSet>, more: seq<TipSet>)
    requires Ledger(spawned, synced)
    ensures Ledger(spawned, synced + more)
  {
    forall i | 0 <= i < |spawned| ensures OnRecord(spawned[i], synced + more) {
      assert OnRecord(spawned[i], synced);
      assert (synced + more)[..spawned[i].syncs] == synced[..spawned[i].syncs];
    }
  }

  lemma LedgerSpawns(spawned: seq<Spawn>, synced: seq<TipSet>, s: Spawn)
    requires Ledger(spawned, synced) && s.id == |spawned| && Fair(s)
    requires s.syncs == |synced| && s.recent == LastN(synced, RECENT_SYNC_BUFFER_SIZE)
    ensures Ledger(spawned + [s], synced)
  {
    assert synced[..s.syncs] == synced;
  }

  /** Whatever was synced before a spawn and is still among the last syncs then is not its target and not heavier. */
  lemma SpawnBeatsRecent(spawned: seq<Spawn>, synced: seq<TipSet>, i: nat, j: nat)
    requires Ledger(spawned, synced) && i < |spawned| && j < spawned[i].syncs && spawned[i].syncs - RECENT_SYNC_BUFFER_SIZE <= j
    ensures j < |synced| && synced[j] != spawned[i].target && synced[j].weight <= spawned[i].target.weight
  {
    var s := spawned[i];
    assert OnRecord(s, synced) && Fair(s);
    var before := synced[..s.syncs];
    var k := if |before| <= RECENT_SYNC_BUFFER_SIZE then j else j - (|before| - RECENT_SYNC_BUFFER_SIZE);
    assert s.recent[k] == synced[j] && s.recent[k] in s.recent;
  }

  /** Every id handed out belongs to one active worker or to one finished worker. */
  ghost predicate IdsAccounted(nextWorker: nat, active: map<nat, Worker>, finished: seq<Worker>) {
    && (forall id :: id in active ==> id < nextWorker && active[id].id == id)
    && (forall i :: 0 <= i < |finished| ==> finished[i].id < nextWorker && finished[i].id !in active)
    && (forall i, j :: 0 <= i < j < |finished| ==> finished[i].id != finished[j].id)
    && (forall id: nat {:trigger FinishedId(finished, id)} :: id < nextWorker ==> id in active || FinishedId(finished, id))
  }

  ghost predicate FinishedId(finished: seq<Worker>, id: nat) {
    exists i :: 0 <= i < |finished| && finished[i].id == id
  }

  lemma SpawnAccounted(nextWorker: nat, active: map<nat, Worker>, finished: seq<Worker>, ts: TipSet)
    requires IdsAccounted(nextWorker, active, finished)
    ensures IdsAccounted(nextWorker + 1, active[nextWorker := Worker(nextWorker, ts)], finished)
  {
    var more := active[nextWorker := Worker(nextWorker, ts)];
    forall id: nat | id < nextWorker + 1 ensures id in more || FinishedId(finished, id) { }
    forall i | 0 <= i < |finished| ensures finished[i].id < nextWorker + 1 && finished[i].id !in more { }
  }

  lemma SpawnCounted(nextWorker: nat, active: map<nat, Worker>, ts: TipSet)
    requires nextWorker !in active
    ensures |active[nextWorker := Worker(nextWorker, ts)]| == |active| + 1
  {
    assert active[nextWorker := Worker(nextWorker, ts)].Keys == active.Keys + {nextWorker};
  }

  lemma FinishAccounted(nextWorker: nat, active: map<nat, Worker>, finished: seq<Worker>, id: nat)
    requires IdsAccounted(nextWorker, active, finished) && id in active
    ensures IdsAccounted(nextWorker, active - {id}, finished + [active[id]])
    ensures |active - {id}| == |active| - 1
  {
    var rest, more := active - {id}, finished + [active[id]];
    assert more[|finished|].id == id;
    forall k: nat | k < nextWorker ensures k in rest || FinishedId(more, k) {
      if k in active {
        if k == id { assert more[|finished|].id == k; }
      } else {
        assert FinishedId(finished, k);
        var i :| 0 <= i < |finished| && finished[i].id == k;
        assert more[i].id == k;
      }
    }
    assert rest.Keys == active.Keys - {id};
  }

  /** The books of the scheduler: all workers, all spawns and all successful syncs. */
  ghost predicate Accounts(nextWorker: nat, active: map<nat, Worker>, initialSyncDone: bool, spawned: seq<Spawn>,
                           finished: seq<Worker>, synced: seq<TipSet>)
  {
    && IdsAccounted(nextWorker, active, finished)
    && |active| <= MAX_SYNC_WORKERS
    && (!initialSyncDone ==> |active| <= 1)
    && |spawned| == nextWorker
    && Ledger(spawned, synced)
    && (nextWorker == 0 ==> synced == [])
  }

  lemma SpawnKeepsAccounts(nextWorker: nat, active: map<nat, Worker>, initialSyncDone: bool, spawned: seq<Spawn>,
                           finished: seq<Worker>, synced: seq<TipSet>, s: Spawn)
    requires Accounts(nextWorker, active, initialSyncDone, spawned, finished, synced)
    requires |active| < MAX_SYNC_WORKERS && (!initialSyncDone ==> active == map[])
    requires Fair(s) && s.id == nextWorker && s.syncs == |synced| && s.recent == LastN(synced, RECENT_SYNC_BUFFER_SIZE)
    ensures var more := active[nextWorker := Worker(nextWorker, s.target)];
      |more| == |active| + 1 && Accounts(nextWorker + 1, more, initialSyncDone, spawned + [s], finished, synced)
  {
    SpawnAccounted(nextWorker, active, finished, s.target);
    SpawnCounted(nextWorker, active, s.target);
    LedgerSpawns(spawned, synced, s);
  }

  lemma RetireKeepsAccounts(nextWorker: nat, active: map<nat, Worker>, initialSyncDone: bool, spawned: seq<Spawn>,
                            finished: seq<Worker>, synced: seq<TipSet>, id: nat, more: seq<TipSet>, done: bool)
    requires Accounts(nextWorker, active, initialSyncDone, spawned, finished, synced) && id in active && (initialSyncDone ==> done)
    ensures |active - {id}| == |active| - 1
    ensures Accounts(nextWorker, active - {id}, done, spawned, finished + [active[id]], synced + more)
  {
    FinishAccounted(nextWorker, active, finished, id);
    LedgerSyncs(spawned, synced, more);
  }

  /** What may become of a peer's head once syncing has started. */
  ghost predicate Routed(ts: TipSet, recent: seq<TipSet>, active: map<nat, Worker>, initialSyncDone: bool,
                         pending: seq<Bucket>, deferred: seq<Bucket>, pending': seq<Bucket>, deferred': seq<Bucket>, work: bool)
  {
    if !Outweighs(ts, recent) then
      !work && pending' == pending && deferred' == deferred
    else if active == map[] then
      work && pending' == pending && deferred' == deferred
    else if !UnrelatedToActive(ts, active) then
      && !work && deferred' == deferred
      && (pending' == pending || pending' == Inserted(pending, ts))
      && ((forall id :: id in active ==> ts.parents != active[id].ts.key) ==> pending' == pending)
      && ((forall id :: id in active ==> ts != active[id].ts) ==> pending' == Inserted(pending, ts))
    else if AnyRelated(pending, ts) then
      !work && pending' == Inserted(pending, ts) && deferred' == deferred
    else if !OutweighsActive(ts, active) || !OutweighsPending(ts, pending) then
      !work && pending' == pending && deferred' == deferred
    else if !initialSyncDone || |active| >= MAX_SYNC_WORKERS then
      !work && pending' == pending && deferred' == Inserted(deferred, ts)
    else
      work && pending' == pending && deferred' == deferred
  }

  ghost predicate StrictlySorted(ws: seq<Worker>) {
    forall i, j :: 0 <= i < j < |ws| ==> ws[i].id < ws[j].id
  }

  method InsertById(ws: seq<Worker>, w: Worker) returns (out: seq<Worker>)
    requires StrictlySorted(ws) && forall v :: v in ws ==> v.id != w.id
    ensures StrictlySorted(out)
    ensures forall v :: v in out <==> v in ws || v == w
  {
    var i := 0;
    while i < |ws| && ws[i].id < w.id
      invariant 0 <= i <= |ws| && forall j :: 0 <= j < i ==> ws[j].id < w.id
    {
      i := i + 1;
    }
    SplicedIn(ws, w, i);
    out := ws[..i] + [w] + ws[i..];
  }

  lemma SplicedIn(ws: seq<Worker>, w: Worker, i: nat)
    requires StrictlySorted(ws) && i <= |ws| && (forall v :: v in ws ==> v.id != w.id)
    requires (forall j :: 0 <= j < i ==> ws[j].id < w.id) && (i < |ws| ==> ws[i].id >= w.id)
    ensures var out := ws[..i] + [w] + ws[i..]; StrictlySorted(out) && forall v :: v in out <==> v in ws || v == w
  {
    var out := ws[..i] + [w] + ws[i..];
    assert i < |ws| ==> ws[i] in ws;
    forall j | i <= j < |ws| ensures w.id < ws[j].id { assert i < j ==> ws[i].id < ws[j].id; }
    forall j | 0 <= j < |out| ensures out[j] == if j < i then ws[j] else if j == i then w else ws[j - 1] { }
    forall v ensures v in out <==> v in ws || v == w { assert ws == ws[..i] + ws[i..]; }
  }

  /** The next tipset in the order of heights. */
  method Lowest(todo: set<TipSet>) returns (low: TipSet)
    requires todo != {}
    ensures low in todo && forall t :: t in todo ==> low.height <= t.height
  {
    low :| low in todo;
    var rest := todo - {low};
    while rest != {}
      invariant rest <= todo && low in todo && forall t :: t in todo - rest ==> low.height <= t.height
      decreases rest
    {
      var t :| t in rest;
      if t.height < low.height { low := t; }
      rest := rest - {t};
    }
  }

  /** The tipsets of a set grouped into buckets, inserted from the lowest up. */
  method BucketsOf(values: set<TipSet>) returns (buckets: SyncBucketSet)
    ensures fresh(buckets) && buckets.Valid()
    ensures forall t :: Represents(buckets.buckets, t) <==> t in values
  {
    buckets := new SyncBucketSet();
    var todo := values;
    while todo != {}
      invariant fresh(buckets) && buckets.Valid() && todo <= values
      invariant forall t :: Represents(buckets.buckets, t) <==> t in values - todo
      decreases todo
    {
      var ts := Lowest(todo);
      forall t ensures Represents(Inserted(buckets.buckets, ts), t) <==> Represents(buckets.buckets, t) || t == ts {
        InsertedRepresents(buckets.buckets, ts, t);
      }
      buckets.Insert(ts);
      todo := todo - {ts};
    }
  }

  datatype Event = PeerHead(p: Peer, ts: TipSet) | WorkerDone(id: nat, failed: bool, fast: bool) | Tick

  // Events -------------------------------------------------------------------------------------------------------

  /** Everything the scheduler knows between two events. */
  datatype Snapshot = Snapshot(
    nextWorker: nat, heads: map<Peer, TipSet>, initialSyncDone: bool, ticking: bool, active: map<nat, Worker>,
    pending: seq<Bucket>, deferred: seq<Bucket>, synced: seq<TipSet>, finished: seq<Worker>, spawned: seq<Spawn>)
  {
    ghost function Recent(): seq<TipSet> {
      LastN(synced, RECENT_SYNC_BUFFER_SIZE)
    }

    /** One more worker. */
    ghost function Spawning(target: TipSet, contested: bool): Snapshot {
      this.(nextWorker := nextWorker + 1,
            active := active[nextWorker := Worker(nextWorker, target)],
            spawned := spawned + [Spawn(nextWorker, target, |synced|, Recent(), contested, active, pending)])
    }

    ghost function Then(target: Option<TipSet>): Snapshot {
      if target.Some? then Spawning(target.value, false) else this
    }

    /** One worker less. */
    ghost function Retiring(id: nat, failed: bool, fast: bool): Snapshot
      requires id in active
    {
      this.(active := active - {id}, finished := finished + [active[id]],
            synced := synced + (if failed then [] else [active[id].ts]),
            initialSyncDone := initialSyncDone || (!failed && fast))
    }
  }

  /** What an event does. */
  ghost predicate Handled(s: Snapshot, threshold: int, e: Event, s': Snapshot) {
    match e
    case PeerHead(p, ts) => if s.nextWorker == 0 then HeadTracked(s, threshold, p, ts, s') else exists work :: HeadRouted(s, ts, work, s')
    case WorkerDone(id, failed, fast) =>
      if id in s.active then Followed(s.Retiring(id, failed, fast), s.active[id].ts, s') else s' == s
    case Tick => if s.ticking && s.initialSyncDone then RampedUp(s.(ticking := false), s') else s' == s
  }

  /** Before the first sync: heads are tracked until there are enough, and then the heaviest is synced. */
  ghost predicate HeadTracked(s: Snapshot, threshold: int, p: Peer, ts: TipSet, s': Snapshot) {
    var known := s.heads[p := ts];
    if |known| < threshold then s' == s.(heads := known)
    else exists t :: Heaviest(known.Values, t) && s' == s.(heads := map[]).Spawning(t, false)
  }

  ghost predicate Heaviest(tipsets: set<TipSet>, t: TipSet) {
    t in tipsets && forall u :: u in tipsets ==> u.weight <= t.weight
  }

  /** From then on: the routing rules, and a worker where they say so. */
  ghost predicate HeadRouted(s: Snapshot, ts: TipSet, work: bool, s': Snapshot) {
    && Routed(ts, s.Recent(), s.active, s.initialSyncDone, s.pending, s.deferred, s'.pending, s'.deferred, work)
    && var m := s.(pending := s'.pending, deferred := s'.deferred);
       s' == if work then m.Spawning(ts, s.active != map[]) else m
  }

  /** After a finished worker: what follows it, if anything. */
  ghost predicate Followed(s: Snapshot, done: TipSet, s': Snapshot) {
    exists target :: FollowedBy(s, done, target, s')
  }

  ghost predicate FollowedBy(s: Snapshot, done: TipSet, target: Option<TipSet>, s': Snapshot) {
    && SelectedNext(done, s.Recent(), s.active, s.pending, s.deferred, s'.pending, s'.deferred, target)
    && s' == s.(pending := s'.pending, deferred := s'.deferred).Then(target)
  }

  /** A choice among the deferred, and a worker for it. */
  ghost predicate Deferred(s: Snapshot, target: Option<TipSet>, s': Snapshot) {
    && Chosen(s.Recent(), s.active, s.deferred, s'.deferred, s'.pending, target)
    && s' == s.(pending := s'.pending, deferred := s'.deferred).Then(target)
  }

  /** The end of the initial sync: deferred targets are synced until there are enough workers or none is left. */
  ghost predicate RampedUp(s: Snapshot, s': Snapshot) {
    exists trace: seq<Snapshot> :: Ramping(s, trace) && Topped(trace[|trace| - 1], s')
  }

  ghost predicate Topped(m: Snapshot, s': Snapshot) {
    if |m.active| >= MAX_SYNC_WORKERS then s' == m else Deferred(m, None, s')
  }

  ghost predicate Ramping(s: Snapshot, trace: seq<Snapshot>) {
    |trace| > 0 && trace[0] == s && forall k :: 0 <= k < |trace| - 1 ==> Rung(trace[k], trace[k + 1])
  }

  ghost predicate Rung(l: Snapshot, m: Snapshot) {
    |l.active| < MAX_SYNC_WORKERS && exists target: TipSet :: Deferred(l, Some(target), m)
  }

  lemma RampingOn(s: Snapshot, trace: seq<Snapshot>, m: Snapshot)
    requires Ramping(s, trace) && Rung(trace[|trace| - 1], m)
    ensures Ramping(s, trace + [m])
  {
    var all := trace + [m];
    forall k | 0 <= k < |all| - 1 ensures Rung(all[k], all[k + 1]) {
      if k < |trace| - 1 { assert Rung(trace[k], trace[k + 1]); }
    }
  }

  /** A run of the event loop, with the states between the events. */
  ghost predicate Ran(states: seq<Snapshot>, threshold: int, events: seq<Event>) {
    |states| == |events| + 1 && forall n :: 0 <= n < |events| ==> Handled(states[n], threshold, events[n], states[n + 1])
  }

  lemma RanOn(states: seq<Snapshot>, threshold: int, events: seq<Event>, e: Event, s': Snapshot)
    requires Ran(states, threshold, events) && Handled(states[|events|], threshold, e, s')
    ensures Ran(states + [s'], threshold, events + [e])
  {
    var all, more := states + [s'], events + [e];
    forall n | 0 <= n < |more| ensures Handled(all[n], threshold, more[n], all[n + 1]) {
      if n < |events| { assert Handled(states[n], threshold, events[n], states[n + 1]); }
    }
  }

  ghost predicate Grows(s: Snapshot, s': Snapshot) {
    s.spawned <= s'.spawned && s.finished <= s'.finished && s.synced <= s'.synced
  }

  /** Records are never rewritten. */
  lemma {:induction false} RecordsGrow(states: seq<Snapshot>, threshold: int, events: seq<Event>, n: nat)
    requires Ran(states, threshold, events) && n <= |events|
    ensures Grows(states[0], states[n])
    decreases n
  {
    if n > 0 {
      RecordsGrow(states, threshold, events, n - 1);
      HandledGrows(states[n - 1], threshold, events[n - 1], states[n]);
    }
  }

  lemma HandledGrows(s: Snapshot, threshold: int, e: Event, s': Snapshot)
    requires Handled(s, threshold, e, s')
    ensures Grows(s, s')
  {
    match e
    case PeerHead(p, ts) => HeadGrows(s, threshold, p, ts, s');
    case WorkerDone(id, failed, fast) => if id in s.active { FollowedGrows(s.Retiring(id, failed, fast), s.active[id].ts, s'); }
    case Tick => if s.ticking && s.initialSyncDone { RampedGrows(s.(ticking := false), s'); }
  }

  lemma HeadGrows(s: Snapshot, threshold: int, p: Peer, ts: TipSet, s': Snapshot)
    requires Handled(s, threshold, PeerHead(p, ts), s')
    ensures Grows(s, s')
  {
    if s.nextWorker > 0 {
      var work :| HeadRouted(s, ts, work, s');
      RoutedGrows(s, ts, work, s');
    }
  }

  lemma RoutedGrows(s: Snapshot, ts: TipSet, work: bool, s': Snapshot)
    requires HeadRouted(s, ts, work, s')
    ensures Grows(s, s')
  {
  }

  lemma FollowedGrows(s: Snapshot, done: TipSet, s': Snapshot)
    requires Followed(s, done, s')
    ensures Grows(s, s')
  {
    var target :| FollowedBy(s, done, target, s');
  }

  lemma RampedGrows(s: Snapshot, s': Snapshot)
    requires RampedUp(s, s')
    ensures Grows(s, s')
  {
    var trace: seq<Snapshot> :| Ramping(s, trace) && Topped(trace[|trace| - 1], s');
    RampingGrows(s, trace, |trace| - 1);
  }

  lemma {:induction false} RampingGrows(s: Snapshot, trace: seq<Snapshot>, k: nat)
    requires Ramping(s, trace) && k < |trace|
    ensures Grows(s, trace[k])
    decreases k
  {
    if k > 0 {
      RampingGrows(s, trace, k - 1);
      assert Rung(trace[k - 1], trace[k]);
      RungGrows(trace[k - 1], trace[k]);
    }
  }

  lemma RungGrows(l: Snapshot, m: Snapshot)
    requires Rung(l, m)
    ensures Grows(l, m)
  {
  }

  class Scheduler {
    const threshold: int
    const pend: SyncBucketSet
    const deferred: SyncBucketSet
    const recent: Ring<TipSet>
    const history: Ring<Worker>
    var nextWorker: nat
    var heads: map<Peer, TipSet>
    var initialSyncDone: bool
    var ticking: bool
    var state: map<nat, Worker>
    ghost var spawned: seq<Spawn>

    ghost predicate Pools()
      reads pend, deferred
    {
      pend != deferred && pend.Valid() && deferred.Valid()
    }

    ghost predicate Parts()
      reads pend, deferred, recent, recent.buf, history, history.buf
    {
      && Pools() && recent as object != history && recent.buf as object != history.buf
      && recent.Valid() && history.Valid()
      && recent.buf.Length == RECENT_SYNC_BUFFER_SIZE && history.buf.Length == SYNC_WORKER_HISTORY
    }

    ghost predicate Core()
      reads this, recent, history
    {
      Accounts(nextWorker, state, initialSyncDone, spawned, history.pushed, recent.pushed)
    }

    ghost predicate Valid()
      reads this, pend, deferred, recent, recent.buf, history, history.buf
    {
      Parts() && Core()
    }

    ghost function Snap(): Snapshot
      reads this, pend, deferred, recent, history
    {
      Snapshot(nextWorker, heads, initialSyncDone, ticking, state, pend.buckets, deferred.buckets, recent.pushed, history.pushed, spawned)
    }

    /** The last successful syncs. */
    ghost function Recent(): seq<TipSet>
      reads recent
    {
      LastN(recent.pushed, RECENT_SYNC_BUFFER_SIZE)
    }

    constructor (threshold: int)
      ensures Valid() && fresh(pend) && fresh(deferred) && fresh(recent) && fresh(recent.buf) && fresh(history) && fresh(history.buf)
      ensures nextWorker == 0 && state == map[] && spawned == [] && !initialSyncDone
    {
      this.threshold := threshold;
      pend := new SyncBucketSet();
      deferred := new SyncBucketSet();
      recent := new Ring<TipSet>(RECENT_SYNC_BUFFER_SIZE);
      history := new Ring<Worker>(SYNC_WORKER_HISTORY);
      nextWorker, heads, initialSyncDone, ticking, state, spawned := 0, map[], false, true, map[], [];
    }

    /** The active workers and the last finished ones, in the order in which they were spawned. */
    method State() returns (ws: seq<Worker>)
      requires Valid()
      ensures StrictlySorted(ws)
      ensures forall w :: w in ws <==> w in state.Values || w in LastN(history.pushed, SYNC_WORKER_HISTORY)
    {
      ws := [];
      var todo := state.Keys;
      while todo != {}
        invariant todo <= state.Keys && StrictlySorted(ws)
        invariant forall w :: w in ws <==> w.id in state.Keys - todo && state[w.id] == w
        decreases todo
      {
        var id :| id in todo;
        ws := InsertById(ws, state[id]);
        todo := todo - {id};
      }
      for i := 0 to history.buf.Length
        invariant StrictlySorted(ws)
        invariant forall w :: w in ws <==> (w.id in state && state[w.id] == w) || Some(w) in history.buf[..i]
      {
        var h := history.buf[i];
        assert history.buf[..i + 1] == history.buf[..i] + [h];
        if h.Some? {
          HistoryIsFinished(i);
          ws := InsertById(ws, h.value);
        }
      }
      assert history.buf[..history.buf.Length] == history.buf[..];
      forall w ensures w in ws <==> w in state.Values || w in LastN(history.pushed, SYNC_WORKER_HISTORY) {
        history.HoldsLast(w);
      }
    }

    lemma HistoryIsFinished(i: nat)
      requires Valid() && i < history.buf.Length && history.buf[i].Some?
      ensures history.buf[i].value.id !in state
      ensures forall j :: 0 <= j < i && history.buf[j].Some? ==> history.buf[j].value.id != history.buf[i].value.id
    {
      var n, size := |history.pushed|, history.buf.Length;
      assert forall j {:trigger history.buf[j]} :: 0 <= j <= i && history.buf[j].Some? ==>
        history.buf[j].value == history.pushed[if n < size then j else if j < history.next then n - history.next + j else n - size + j - history.next];
    }

    method Synced(ts: TipSet) returns (synced: bool)
      requires recent.Valid() && recent.buf.Length == RECENT_SYNC_BUFFER_SIZE
      ensures synced <==> !Outweighs(ts, Recent())
    {
      for i := 0 to recent.buf.Length
        invariant forall j :: 0 <= j < i && recent.buf[j].Some? ==> recent.buf[j].value != ts && recent.buf[j].value.weight <= ts.weight
      {
        var rts := recent.buf[i];
        if rts.Some? && (rts.value == ts || rts.value.weight > ts.weight) {
          assert Some(rts.value) == recent.buf[..][i];
          recent.HoldsLast(rts.value);
          return true;
        }
      }
      forall r | r in Recent() ensures r != ts && r.weight <= ts.weight {
        recent.HoldsLast(r);
        var j :| 0 <= j < recent.buf.Length && recent.buf[..][j] == Some(r);
      }
      return false;
    }

    method SpawnWorker(target: TipSet, ghost contested: bool)
      requires Core() && |state| < MAX_SYNC_WORKERS && (!initialSyncDone ==> state == map[])
      requires Fair(Spawn(nextWorker, target, |recent.pushed|, Recent(), contested, state, pend.buckets))
      modifies this`spawned, this`state, this`nextWorker
      ensures Core()
      ensures Snap() == old(Snap()).Spawning(target, contested)
      ensures |state| == |old(state)| + 1
    {
      ghost var s := Spawn(nextWorker, target, |recent.pushed|, Recent(), contested, state, pend.buckets);
      SpawnKeepsAccounts(nextWorker, state, initialSyncDone, spawned, history.pushed, recent.pushed, s);
      spawned := spawned + [s];
      state := state[nextWorker := Worker(nextWorker, target)];
      nextWorker := nextWorker + 1;
    }

    /** The heaviest of the tracked peer heads, wherever it sits among the buckets. */
    method SelectInitialSyncTarget() returns (target: Option<TipSet>)
      modifies this`heads
      ensures heads == map[]
      ensures target.None? <==> old(heads) == map[]
      ensures target.Some? ==> target.value in old(heads).Values && forall t :: t in old(heads).Values ==> t.weight <= target.value.weight
    {
      var values := heads.Values;
      var buckets := BucketsOf(values);
      target := buckets.Heaviest();
      if heads != map[] {
        var p :| p in heads;
        assert heads[p] in heads.Values;
        assert Represents(buckets.buckets, heads[p]);
      }
      heads := map[];
    }

    /** Whether ts is the target of an active worker, or builds on one; whichever is met first decides. */
    method RelateToActive(ts: TipSet) returns (equal: bool, extends_: bool)
      ensures !(equal && extends_)
      ensures !equal && !extends_ <==> UnrelatedToActive(ts, state)
      ensures equal ==> exists id :: id in state && ts == state[id].ts
      ensures extends_ ==> exists id :: id in state && ts.parents == state[id].ts.key
    {
      var todo := state.Keys;
      while todo != {}
        invariant todo <= state.Keys
        invariant forall id :: id in state.Keys - todo ==> ts != state[id].ts && ts.parents != state[id].ts.key
        decreases todo
      {
        var id :| id in todo;
        if ts == state[id].ts { return true, false; }
        if ts.parents == state[id].ts.key { return false, true; }
        todo := todo - {id};
      }
      return false, false;
    }

    method HeavierActive(ts: TipSet) returns (heavier: bool)
      ensures heavier <==> !OutweighsActive(ts, state)
    {
      var todo := state.Keys;
      while todo != {}
        invariant todo <= state.Keys && forall id :: id in state.Keys - todo ==> state[id].ts.weight <= ts.weight
        decreases todo
      {
        var id :| id in todo;
        if state[id].ts.weight > ts.weight { return true; }
        todo := todo - {id};
      }
      return false;
    }

    /** Whether ts has to give way to a running or pending sync that is heavier. */
    method Outranked(ts: TipSet) returns (outranked: bool)
      requires pend.Valid()
      ensures outranked <==> !OutweighsActive(ts, state) || !OutweighsPending(ts, pend.buckets)
    {
      var heavier := HeavierActive(ts);
      if heavier { return true; }
      var pendHeaviest := pend.Heaviest();
      return pendHeaviest.Some? && pendHeaviest.value.weight > ts.weight;
    }

    /** A candidate unrelated to the active syncs: pending, outranked, deferred or to be synced now. */
    method Place(ts: TipSet) returns (work: bool)
      requires Pools() && state != map[] && Outweighs(ts, Recent()) && UnrelatedToActive(ts, state)
      modifies pend, deferred
      ensures Pools()
      ensures Routed(ts, Recent(), state, initialSyncDone, old(pend.buckets), old(deferred.buckets), pend.buckets, deferred.buckets, work)
    {
      var related := pend.RelatedToAny(ts);
      if related {
        pend.Insert(ts);
        return false;
      }
      var outranked := Outranked(ts);
      if outranked { return false; }
      if !initialSyncDone || |state| >= MAX_SYNC_WORKERS {
        deferred.Insert(ts);
        return false;
      }
      return true;
    }

    method AddSyncTarget(ts: TipSet) returns (work: bool)
      requires Parts()
      modifies pend, deferred
      ensures Parts()
      ensures Routed(ts, Recent(), state, initialSyncDone, old(pend.buckets), old(deferred.buckets), pend.buckets, deferred.buckets, work)
    {
      var synced := Synced(ts);
      if synced { return false; }
      if state == map[] { return true; }
      work := AddBesideActive(ts);
    }

    /** With syncs running: a candidate that one of them covers, or builds on, or any other. */
    method AddBesideActive(ts: TipSet) returns (work: bool)
      requires Pools() && state != map[] && Outweighs(ts, Recent())
      modifies pend, deferred
      ensures Pools()
      ensures Routed(ts, Recent(), state, initialSyncDone, old(pend.buckets), old(deferred.buckets), pend.buckets, deferred.buckets, work)
    {
      var equal, extends_ := RelateToActive(ts);
      if equal { return false; }
      if extends_ {
        pend.Insert(ts);
        return false;
      }
      work := Place(ts);
    }

    /** Only one active worker, picked at random, is asked about a candidate; without one it is dropped. */
    method Consider(heaviest: TipSet) returns (take: bool)
      requires Parts()
      modifies pend
      ensures Parts() && Considered(heaviest, Recent(), state, old(pend.buckets), pend.buckets, take)
    {
      var synced := Synced(heaviest);
      if synced { return false; }
      take := ConsiderPending(heaviest);
    }

    method ConsiderPending(heaviest: TipSet) returns (take: bool)
      requires Pools() && Outweighs(heaviest, Recent())
      modifies pend
      ensures Pools() && Considered(heaviest, Recent(), state, old(pend.buckets), pend.buckets, take)
    {
      var related := pend.RelatedToAny(heaviest);
      if related {
        pend.Insert(heaviest);
        return false;
      }
      if state == map[] { return false; }
      var id :| id in state;
      take := AskWorker(id, heaviest);
    }

    method AskWorker(id: nat, heaviest: TipSet) returns (take: bool)
      requires Pools() && id in state
      modifies pend
      ensures Pools() && JudgedBy(state[id].ts, heaviest, old(pend.buckets), pend.buckets, take)
    {
      if state[id].ts == heaviest || state[id].ts.weight > heaviest.weight { return false; }
      if heaviest.parents == state[id].ts.key {
        pend.Insert(heaviest);
        return false;
      }
      return true;
    }

    /** Pops deferred buckets until one is worth syncing; without active workers the whole set is dropped. */
    method SelectDeferredSyncTarget() returns (target: Option<TipSet>)
      requires Parts()
      modifies pend, deferred
      ensures Parts()
      ensures Chosen(Recent(), state, old(deferred.buckets), deferred.buckets, pend.buckets, target)
    {
      while deferred.buckets != []
        invariant Parts() && Choosing(Recent(), state, old(deferred.buckets), deferred.buckets, pend.buckets)
        decreases |deferred.buckets|
      {
        var heaviest, take := ConsiderNext(old(deferred.buckets));
        if take { return Some(heaviest); }
      }
      return None;
    }

    /** The heaviest deferred bucket is popped and considered. */
    method ConsiderNext(ghost before: seq<Bucket>) returns (heaviest: TipSet, take: bool)
      requires Parts() && deferred.buckets != [] && Choosing(Recent(), state, before, deferred.buckets, pend.buckets)
      modifies pend, deferred
      ensures Parts() && |deferred.buckets| < |old(deferred.buckets)|
      ensures !take ==> Choosing(Recent(), state, before, deferred.buckets, pend.buckets)
      ensures take ==> Chosen(Recent(), state, before, deferred.buckets, pend.buckets, Some(heaviest))
    {
      ghost var now, pending := deferred.buckets, pend.buckets;
      ghost var at;
      heaviest, at := PopDeferred();
      take := Consider(heaviest);
      ChoosingStep(Recent(), state, before, now, at, heaviest, pending, pend.buckets, take);
    }

    method PopDeferred() returns (heaviest: TipSet, ghost at: nat)
      requires Pools() && deferred.buckets != []
      modifies deferred
      ensures Pools() && at < |old(deferred.buckets)| && FirstHeavy(old(deferred.buckets)[at], heaviest)
      ensures deferred.buckets == old(deferred.buckets)[..at] + old(deferred.buckets)[at + 1..]
      ensures forall u :: Represents(old(deferred.buckets), u) ==> u.weight <= heaviest.weight
    {
      ghost var now := deferred.buckets;
      var bucket := deferred.Pop();
      at :| PoppedAt(now, at, bucket, deferred.buckets);
      heaviest := HeaviestTipSet(bucket);
    }

    method Follows(done: TipSet, ts: TipSet) returns (may: bool)
      requires recent.Valid() && recent.buf.Length == RECENT_SYNC_BUFFER_SIZE
      ensures may <==> MayFollow(done, ts, state, Recent())
    {
      if done.weight > ts.weight { return false; }
      var heavier := HeavierActive(ts);
      if heavier { return false; }
      var synced := Synced(ts);
      return !synced;
    }

    /** The heaviest pending tipset related to the finished one if it may follow, or else a deferred one. */
    method SelectSyncTarget(done: TipSet) returns (target: Option<TipSet>)
      requires Parts()
      modifies pend, deferred
      ensures Parts()
      ensures target.Some? ==> Outweighs(target.value, Recent())
      ensures SelectedNext(done, Recent(), state, old(pend.buckets), old(deferred.buckets), pend.buckets, deferred.buckets, target)
    {
      var heaviest, may := PopFollower(done);
      if may { return heaviest; }
      target := SelectDeferredSyncTarget();
    }

    /** The heaviest of the pending tipsets related to the finished one, and whether it may follow. */
    method PopFollower(done: TipSet) returns (heaviest: Option<TipSet>, may: bool)
      requires Parts()
      modifies pend
      ensures Parts() && pend.buckets == Keep(old(pend.buckets), done)
      ensures heaviest.Some? <==> AnyRelated(old(pend.buckets), done)
      ensures heaviest.Some? ==> FirstHeavy(Gather(old(pend.buckets), done), heaviest.value)
      ensures may <==> heaviest.Some? && MayFollow(done, heaviest.value, state, Recent())
    {
      heaviest := PopHeaviest(done);
      if heaviest.None? { return heaviest, false; }
      may := Follows(done, heaviest.value);
    }

    method PopHeaviest(done: TipSet) returns (heaviest: Option<TipSet>)
      requires Pools()
      modifies pend
      ensures Pools() && pend.buckets == Keep(old(pend.buckets), done)
      ensures heaviest.Some? <==> AnyRelated(old(pend.buckets), done)
      ensures heaviest.Some? ==> FirstHeavy(Gather(old(pend.buckets), done), heaviest.value)
    {
      var related := pend.PopRelated(done);
      if related.None? { return None; }
      var best := HeaviestTipSet(related.value);
      return Some(best);
    }

    method HandlePeerHead(p: Peer, ts: TipSet)
      requires Valid()
      modifies this, pend, deferred
      ensures Valid() && Handled(old(Snap()), threshold, PeerHead(p, ts), Snap())
    {
      if nextWorker == 0 {
        TrackHead(p, ts);
        return;
      }
      ghost var work := RouteHead(ts);
    }

    /** Before the first sync: heads are tracked until there are enough, and then the heaviest is synced. */
    method TrackHead(p: Peer, ts: TipSet)
      requires Core() && nextWorker == 0
      modifies this`heads, this`spawned, this`state, this`nextWorker
      ensures Core() && HeadTracked(old(Snap()), threshold, p, ts, Snap())
    {
      heads := heads[p := ts];
      if |heads| < threshold { return; }
      assert p in heads;
      var target := SelectInitialSyncTarget();
      if target.None? { return; }
      SpawnWorker(target.value, false);
    }

    /** From then on: the routing rules, and a worker where they say so. */
    method RouteHead(ts: TipSet) returns (work: bool)
      requires Valid() && nextWorker > 0
      modifies this`spawned, this`state, this`nextWorker, pend, deferred
      ensures Valid() && HeadRouted(old(Snap()), ts, work, Snap())
    {
      work := AddSyncTarget(ts);
      if work { SpawnWorker(ts, state != map[]); }
    }

    /** The worker leaves the active ones, and is logged with its success. */
    method LogFinished(id: nat, failed: bool, fast: bool) returns (ws: Worker)
      requires Parts() && id in state
      modifies this`state, this`initialSyncDone, recent, recent.buf, history, history.buf
      ensures Parts() && ws == old(state)[id] && state == old(state) - {id}
      ensures history.pushed == old(history.pushed) + [ws]
      ensures recent.pushed == old(recent.pushed) + if failed then [] else [ws.ts]
      ensures initialSyncDone <==> old(initialSyncDone) || (!failed && fast)
    {
      ws := state[id];
      state := state - {id};
      history.Push(ws);
      if !failed {
        recent.Push(ws.ts);
        if !initialSyncDone && fast { initialSyncDone := true; }
      }
    }

    /** The bookkeeping for a worker that reported back. */
    method Retire(id: nat, failed: bool, fast: bool) returns (ws: Worker)
      requires Valid() && id in state
      modifies this`state, this`initialSyncDone, recent, recent.buf, history, history.buf
      ensures Valid() && ws == old(state)[id] && |state| == |old(state)| - 1
      ensures Snap() == old(Snap()).Retiring(id, failed, fast)
    {
      RetireKeepsAccounts(nextWorker, state, initialSyncDone, spawned, history.pushed, recent.pushed, id,
                          if failed then [] else [state[id].ts], initialSyncDone || (!failed && fast));
      ws := LogFinished(id, failed, fast);
    }

    method HandleWorkerStatus(id: nat, failed: bool, fast: bool)
      requires Valid() && id in state
      modifies this, pend, deferred, recent, recent.buf, history, history.buf
      ensures Valid() && Followed(old(Snap()).Retiring(id, failed, fast), old(state)[id].ts, Snap())
    {
      var ws := Retire(id, failed, fast);
      var target := FollowUp(ws.ts);
    }

    method FollowUp(done: TipSet) returns (target: Option<TipSet>)
      requires Valid() && |state| < MAX_SYNC_WORKERS && (!initialSyncDone ==> state == map[])
      modifies this`spawned, this`state, this`nextWorker, pend, deferred
      ensures Valid() && FollowedBy(old(Snap()), done, target, Snap())
    {
      target := SelectSyncTarget(done);
      SpawnIf(target);
    }

    method HandleInitialSyncDone()
      requires Valid() && initialSyncDone
      modifies this`spawned, this`state, this`nextWorker, pend, deferred
      ensures Valid() && RampedUp(old(Snap()), Snap())
      ensures |state| == MAX_SYNC_WORKERS || deferred.buckets == []
    {
      ghost var trace := [Snap()];
      while |state| < MAX_SYNC_WORKERS
        invariant Valid() && initialSyncDone && Ramping(old(Snap()), trace) && trace[|trace| - 1] == Snap()
        decreases MAX_SYNC_WORKERS - |state|
      {
        var more;
        more, trace := RampOnce(old(Snap()), trace);
        if !more { return; }
      }
    }

    method RampOnce(ghost from: Snapshot, ghost trace: seq<Snapshot>) returns (more: bool, ghost trace': seq<Snapshot>)
      requires Valid() && initialSyncDone && |state| < MAX_SYNC_WORKERS && Ramping(from, trace) && trace[|trace| - 1] == Snap()
      modifies this`spawned, this`state, this`nextWorker, pend, deferred
      ensures Valid() && (more ==> Ramping(from, trace') && trace'[|trace'| - 1] == Snap() && |state| == |old(state)| + 1)
      ensures !more ==> RampedUp(from, Snap()) && deferred.buckets == []
    {
      var target := SpawnDeferred();
      if target.None? { return false, trace; }
      RampingOn(from, trace, Snap());
      return true, trace + [Snap()];
    }

    method SpawnDeferred() returns (target: Option<TipSet>)
      requires Valid() && initialSyncDone && |state| < MAX_SYNC_WORKERS
      modifies this`spawned, this`state, this`nextWorker, pend, deferred
      ensures Valid() && Deferred(old(Snap()), target, Snap())
      ensures target.Some? ==> |state| == |old(state)| + 1
    {
      target := SelectDeferredSyncTarget();
      SpawnIf(target);
    }

    method SpawnIf(target: Option<TipSet>)
      requires Valid() && |state| < MAX_SYNC_WORKERS && (!initialSyncDone ==> state == map[])
      requires target.Some? ==> Outweighs(target.value, Recent())
      modifies this`spawned, this`state, this`nextWorker
      ensures Valid() && Snap() == old(Snap()).Then(target) && |state| == |old(state)| + if target.Some? then 1 else 0
    {
      if target.Some? { SpawnWorker(target.value, false); }
    }

    /** One event of the loop. */
    method Handle(e: Event)
      requires Valid()
      modifies this, pend, deferred, recent, recent.buf, history, history.buf
      ensures Valid() && Handled(old(Snap()), threshold, e, Snap())
    {
      match e
      case PeerHead(p, ts) => HandlePeerHead(p, ts);
      case WorkerDone(id, failed, fast) =>
        if id in state { HandleWorkerStatus(id, failed, fast); }
      case Tick => HandleTick();
    }

    method HandleTick()
      requires Valid()
      modifies this, pend, deferred
      ensures Valid() && Handled(old(Snap()), threshold, Tick, Snap())
    {
      if ticking && initialSyncDone {
        ticking := false;
        HandleInitialSyncDone();
      }
    }

    method HandleNext(events: seq<Event>, n: nat, ghost states: seq<Snapshot>) returns (ghost states': seq<Snapshot>)
      requires Valid() && n < |events| && Ran(states, threshold, events[..n]) && states[n] == Snap()
      modifies this, pend, deferred, recent, recent.buf, history, history.buf
      ensures Valid() && Ran(states', threshold, events[..n + 1]) && states'[0] == states[0] && states'[n + 1] == Snap()
    {
      Handle(events[n]);
      assert events[..n + 1] == events[..n] + [events[n]];
      RanOn(states, threshold, events[..n], events[n], Snap());
      states' := states + [Snap()];
    }

    /** The event loop on any sequence of events; every state it passes through is valid, and no record is rewritten. */
    method Run(events: seq<Event>) returns (ghost states: seq<Snapshot>)
      requires Valid()
      modifies this, pend, deferred, recent, recent.buf, history, history.buf
      ensures Valid() && Ran(states, threshold, events) && states[0] == old(Snap()) && states[|events|] == Snap()
      ensures old(spawned) <= spawned && old(history.pushed) <= history.pushed && old(recent.pushed) <= recent.pushed
    {
      states := [Snap()];
      for n := 0 to |events|
        invariant Valid() && Ran(states, threshold, events[..n]) && states[0] == old(Snap()) && states[n] == Snap()
      {
        states := HandleNext(events, n, states);
      }
      assert events[..|events|] == events;
      RecordsGrow(states, threshold, events, |events|);
    }
  }
}
