/** Filling headers with messages and replaying them oldest first: fetchMessages and iterFullTipsets. */
module Messages {
  import opened Prelude
  import opened Chain

  const BLOCK_MESSAGE_LIMIT := 10000
  const SYNC_REQUEST_BATCH_SIZE := 8
  const CONCURRENT_SYNC_REQUESTS := 16
  const SYNC_REQUEST_RETRIES := 5

  /** Messages travel as their CIDs; `root` is the CID of the combined message trie. */
  type Root = (seq<Cid>, seq<Cid>) -> Cid

  datatype FullBlock = FullBlock(header: Header, bls: seq<Cid>, secpk: seq<Cid>)

  datatype FullTipSet = FullTipSet(blocks: seq<FullBlock>) {

    ghost predicate Fills(ts: TipSet) {
      && |blocks| == |ts.blocks|
      && forall i :: 0 <= i < |blocks| ==> blocks[i].header == ts.blocks[i]
    }

    /** Every block carries exactly the messages its header commits to. */
    ghost predicate Committed(root: Root) {
      forall i :: 0 <= i < |blocks| ==>
        && |blocks[i].bls| + |blocks[i].secpk| <= BLOCK_MESSAGE_LIMIT
        && blocks[i].header.messages == root(blocks[i].bls, blocks[i].secpk)
    }
  }

  datatype Compacted = Compacted(bls: seq<Cid>, secpk: seq<Cid>, blsIncludes: seq<seq<nat>>, secpkIncludes: seq<seq<nat>>) {

    /** The exchange client checks that all indices are in range, and that there is one list of them per block. */
    ghost predicate IndicesInRange() {
      && (forall b :: 0 <= b < |blsIncludes| ==> InRange(blsIncludes[b], |bls|))
      && (forall b :: 0 <= b < |secpkIncludes| ==> InRange(secpkIncludes[b], |secpk|))
    }

    ghost predicate Shaped(ts: TipSet) {
      |blsIncludes| == |secpkIncludes| == |ts.blocks| && IndicesInRange()
    }
  }

  ghost predicate InRange(indices: seq<nat>, n: nat) {
    forall i :: 0 <= i < |indices| ==> indices[i] < n
  }

  ghost function Picked(all: seq<Cid>, indices: seq<nat>): seq<Cid>
    requires InRange(indices, |all|)
  {
    seq(|indices|, i requires 0 <= i < |indices| => all[indices[i]])
  }

  method Pick(all: seq<Cid>, indices: seq<nat>) returns (picked: seq<Cid>)
    requires InRange(indices, |all|)
    ensures picked == Picked(all, indices)
  {
    picked := [];
    for i := 0 to |indices|
      invariant picked == Picked(all, indices)[..i]
    {
      picked := picked + [all[indices[i]]];
    }
  }

  ghost predicate BlockMeta(root: Root, ts: TipSet, cm: Compacted, b: nat)
    requires cm.Shaped(ts) && b < |ts.blocks|
  {
    && |cm.blsIncludes[b]| + |cm.secpkIncludes[b]| <= BLOCK_MESSAGE_LIMIT
    && ts.blocks[b].messages == root(Picked(cm.bls, cm.blsIncludes[b]), Picked(cm.secpk, cm.secpkIncludes[b]))
  }

  ghost predicate Meta(root: Root, ts: TipSet, cm: Compacted)
    requires cm.Shaped(ts)
  {
    forall b :: 0 <= b < |ts.blocks| ==> BlockMeta(root, ts, cm, b)
  }

  method CheckMsgMeta(root: Root, ts: TipSet, cm: Compacted) returns (ok: bool)
    requires cm.Shaped(ts)
    ensures ok <==> Meta(root, ts, cm)
  {
    for b := 0 to |ts.blocks|
      invariant forall c :: 0 <= c < b ==> BlockMeta(root, ts, cm, c)
    {
      if |cm.blsIncludes[b]| + |cm.secpkIncludes[b]| > BLOCK_MESSAGE_LIMIT {
        assert !BlockMeta(root, ts, cm, b);
        return false;
      }
      var smsgs := Pick(cm.secpk, cm.secpkIncludes[b]);
      var bmsgs := Pick(cm.bls, cm.blsIncludes[b]);
      if ts.blocks[b].messages != root(bmsgs, smsgs) {
        assert !BlockMeta(root, ts, cm, b);
        return false;
      }
    }
    return true;
  }

  ghost predicate FilledFrom(fts: FullTipSet, ts: TipSet, cm: Compacted)
    requires cm.Shaped(ts)
  {
    && fts.Fills(ts)
    && forall b :: 0 <= b < |fts.blocks| ==>
         && fts.blocks[b].bls == Picked(cm.bls, cm.blsIncludes[b])
         && fts.blocks[b].secpk == Picked(cm.secpk, cm.secpkIncludes[b])
  }

  /** zipTipSetAndMessages; a wrong number of index lists and messages that do not hash to the roots are refused. */
  method Zip(root: Root, ts: TipSet, cm: Compacted) returns (r: Option<FullTipSet>)
    requires cm.IndicesInRange()
    ensures r.Some? <==> cm.Shaped(ts) && Meta(root, ts, cm)
    ensures r.Some? ==> FilledFrom(r.value, ts, cm) && r.value.Committed(root)
  {
    if |ts.blocks| != |cm.secpkIncludes| || |ts.blocks| != |cm.blsIncludes| { return None; }
    var ok := CheckMsgMeta(root, ts, cm);
    if !ok { return None; }
    var blocks: seq<FullBlock> := [];
    for b := 0 to |ts.blocks|
      invariant |blocks| == b
      invariant forall c :: 0 <= c < b ==>
        blocks[c] == FullBlock(ts.blocks[c], Picked(cm.bls, cm.blsIncludes[c]), Picked(cm.secpk, cm.secpkIncludes[c]))
    {
      var smsgs := Pick(cm.secpk, cm.secpkIncludes[b]);
      var bmsgs := Pick(cm.bls, cm.blsIncludes[b]);
      blocks := blocks + [FullBlock(ts.blocks[b], bmsgs, smsgs)];
    }
    var fts := FullTipSet(blocks);
    forall b | 0 <= b < |blocks|
      ensures |blocks[b].bls| + |blocks[b].secpk| <= BLOCK_MESSAGE_LIMIT
      ensures blocks[b].header.messages == root(blocks[b].bls, blocks[b].secpk)
    {
      assert BlockMeta(root, ts, cm, b);
    }
    return Some(fts);
  }

  /** With a collision-free root the messages of a tipset are determined by its headers, whoever supplied them. */
  lemma CommittedIsUnique(root: Root, ts: TipSet, f: FullTipSet, g: FullTipSet)
    requires forall a, b, c, d :: root(a, b) == root(c, d) ==> a == c && b == d
    requires f.Fills(ts) && g.Fills(ts) && f.Committed(root) && g.Committed(root)
    ensures f == g
  {
    forall i | 0 <= i < |f.blocks| ensures f.blocks[i] == g.blocks[i] {
      assert root(f.blocks[i].bls, f.blocks[i].secpk) == root(g.blocks[i].bls, g.blocks[i].secpk);
    }
    assert f.blocks == g.blocks;
  }

  /** GetChainMessages, asked again on each retry. */
  type Peers = (seq<TipSet>, nat) -> Option<seq<Compacted>>

  ghost predicate Answers(cms: seq<Compacted>, request: seq<TipSet>) {
    && |cms| == |request|
    && forall i :: 0 <= i < |cms| ==> cms[i].Shaped(request[i])
  }

  ghost predicate PeersConform(peers: Peers) {
    forall request: seq<TipSet>, retry: nat {:trigger peers(request, retry)} ::
      peers(request, retry).Some? ==> Answers(peers(request, retry).value, request)
  }

  ghost predicate AllMeta(root: Root, request: seq<TipSet>, cms: seq<Compacted>)
    requires Answers(cms, request)
  {
    forall i :: 0 <= i < |cms| ==> Meta(root, request[i], cms[i])
  }

  ghost predicate Good(root: Root, peers: Peers, request: seq<TipSet>, retry: nat)
    requires PeersConform(peers)
  {
    peers(request, retry).Some? && AllMeta(root, request, peers(request, retry).value)
  }

  /** The first good answer from try number `retry` on, if one comes before the retries run out. */
  ghost function FirstGood(root: Root, peers: Peers, request: seq<TipSet>, retry: nat): (r: Option<seq<Compacted>>)
    requires PeersConform(peers) && retry <= SYNC_REQUEST_RETRIES
    ensures r.Some? ==> Answers(r.value, request) && AllMeta(root, request, r.value)
    decreases SYNC_REQUEST_RETRIES - retry
  {
    if retry == SYNC_REQUEST_RETRIES then None
    else if Good(root, peers, request, retry) then peers(request, retry)
    else FirstGood(root, peers, request, retry + 1)
  }

  method CheckAnswer(root: Root, request: seq<TipSet>, cms: seq<Compacted>) returns (good: bool)
    requires Answers(cms, request)
    ensures good <==> AllMeta(root, request, cms)
  {
    for i := 0 to |request|
      invariant forall j :: 0 <= j < i ==> Meta(root, request[j], cms[j])
    {
      var ok := CheckMsgMeta(root, request[i], cms[i]);
      if !ok { return false; }
    }
    return true;
  }

  method Request(root: Root, peers: Peers, request: seq<TipSet>) returns (result: Option<seq<Compacted>>)
    requires PeersConform(peers)
    ensures result == FirstGood(root, peers, request, 0)
  {
    result := None;
    var retry := 0;
    while result.None? && retry < SYNC_REQUEST_RETRIES
      invariant retry <= SYNC_REQUEST_RETRIES
      invariant FirstGood(root, peers, request, 0) == if result.Some? then result else FirstGood(root, peers, request, retry)
    {
      var answer := peers(request, retry);
      if answer.Some? {
        var good := CheckAnswer(root, request, answer.value);
        if good { result := answer; }
      }
      retry := retry + 1;
    }
  }

  /** The stretch of headers that the worker started at j is responsible for. */
  function Stop(j: nat, n: nat): nat {
    if j + SYNC_REQUEST_BATCH_SIZE > n then n else j + SYNC_REQUEST_BATCH_SIZE
  }

  /** A worker asks for at most eight headers, and for fewer only at the end. */
  lemma StretchIs(j: nat, n: nat)
    requires j < n
    ensures j < Stop(j, n) <= n && Stop(j, n) <= j + 8 && (Stop(j, n) == n || Stop(j, n) == j + 8)
  {
  }

  function StartOf(k: nat): nat {
    k - k % SYNC_REQUEST_BATCH_SIZE
  }

  ghost function WorkerResult(root: Root, peers: Peers, headers: seq<TipSet>, j: nat): Option<seq<Compacted>>
    requires PeersConform(peers) && j < |headers|
  {
    FirstGood(root, peers, headers[j..Stop(j, |headers|)], 0)
  }

  /** An order in which the workers, one per stretch, get to write their results. */
  ghost predicate Schedule(order: seq<nat>, n: nat) {
    && (forall j: nat :: j in order <==> j < n && j % SYNC_REQUEST_BATCH_SIZE == 0)
    && (forall a, b :: 0 <= a < b < |order| ==> order[a] != order[b])
  }

  /** Workers write disjoint stretches: slot k belongs to the worker started at StartOf(k) and to no other. */
  lemma StretchesAreDisjoint(k: nat, j: nat, n: nat)
    requires k < n && j % SYNC_REQUEST_BATCH_SIZE == 0 && j < n
    ensures j <= k < Stop(j, n) <==> j == StartOf(k)
  {
  }

  /** One worker: requests until its stretch is covered, writing what it got into the shared batch. */
  method FetchWorker(root: Root, peers: Peers, headers: seq<TipSet>, j: nat, batch: array<Option<Compacted>>)
    returns (failed: bool)
    requires PeersConform(peers) && batch.Length == |headers| && j < |headers|
    modifies batch
    ensures failed <==> WorkerResult(root, peers, headers, j).None?
    ensures forall k :: 0 <= k < batch.Length && !(j <= k < Stop(j, |headers|)) ==> batch[k] == old(batch[k])
    ensures !failed ==> forall k :: j <= k < Stop(j, |headers|) ==>
      batch[k] == Some(WorkerResult(root, peers, headers, j).value[k - j])
  {
    var nreq := Stop(j, |headers|) - j;
    failed := false;
    var offset := 0;
    while !failed && offset < nreq
      invariant offset == 0 || offset == nreq
      invariant failed ==> WorkerResult(root, peers, headers, j).None?
      invariant !failed && offset == nreq ==> WorkerResult(root, peers, headers, j).Some?
      invariant forall k :: 0 <= k < batch.Length && !(j <= k < j + nreq) ==> batch[k] == old(batch[k])
      invariant !failed && offset == nreq ==>
        forall k :: j <= k < j + nreq ==> batch[k] == Some(WorkerResult(root, peers, headers, j).value[k - j])
      decreases !failed, nreq - offset
    {
      var nextI, lastI := j + offset, j + nreq;
      var result := Request(root, peers, headers[nextI..lastI]);
      if result.Some? {
        forall i | 0 <= i < |result.value| {
          batch[j + offset + i] := Some(result.value[i]);
        }
        offset := offset + |result.value|;
      } else {
        failed := true;
      }
    }
  }

  ghost function Fetched(root: Root, peers: Peers, headers: seq<TipSet>, k: nat): Option<Compacted>
    requires PeersConform(peers) && k < |headers|
  {
    var w := WorkerResult(root, peers, headers, StartOf(k));
    if w.Some? then Some(w.value[k - StartOf(k)]) else None
  }

  lemma FetchedIsGood(root: Root, peers: Peers, headers: seq<TipSet>, k: nat)
    requires PeersConform(peers) && k < |headers| && Fetched(root, peers, headers, k).Some?
    ensures Fetched(root, peers, headers, k).value.Shaped(headers[k])
    ensures Meta(root, headers[k], Fetched(root, peers, headers, k).value)
  {
    var j := StartOf(k);
    var request := headers[j..Stop(j, |headers|)];
    assert request[k - j] == headers[k];
    var w := WorkerResult(root, peers, headers, j).value;
    assert AllMeta(root, request, w) && w[k - j].Shaped(request[k - j]);
  }

  /** The slots of the workers that have written hold what was fetched for them. */
  ghost predicate Written(root: Root, peers: Peers, headers: seq<TipSet>, batch: seq<Option<Compacted>>, done: seq<nat>)
    requires PeersConform(peers) && |batch| == |headers|
  {
    forall k :: 0 <= k < |headers| && StartOf(k) in done ==>
      Fetched(root, peers, headers, k).Some? && batch[k] == Fetched(root, peers, headers, k)
  }

  /** A worker's turn settles its own slots and leaves the settled ones of every other worker alone. */
  method WorkerTurn(root: Root, peers: Peers, headers: seq<TipSet>, j: nat, batch: array<Option<Compacted>>, ghost done: seq<nat>)
    returns (failed: bool)
    requires PeersConform(peers) && batch.Length == |headers| && j < |headers| && j % SYNC_REQUEST_BATCH_SIZE == 0
    modifies batch
    ensures failed ==> Fetched(root, peers, headers, j).None?
    ensures !failed && old(Written(root, peers, headers, batch[..], done)) ==> Written(root, peers, headers, batch[..], done + [j])
  {
    failed := FetchWorker(root, peers, headers, j, batch);
    forall k: nat | k < |headers| ensures j <= k < Stop(j, |headers|) <==> j == StartOf(k) {
      StretchesAreDisjoint(k, j, |headers|);
    }
  }

  lemma EverySlotScheduled(order: seq<nat>, n: nat)
    requires Schedule(order, n)
    ensures forall k :: 0 <= k < n ==> StartOf(k) in order
  {
  }

  /**
    In whatever order the workers write, the batch either fails as a whole or ends up with the answer fetched for
    each header in that header's slot.
   */
  method FetchMessages(root: Root, peers: Peers, headers: seq<TipSet>, order: seq<nat>)
    returns (r: Option<seq<Compacted>>)
    requires PeersConform(peers) && Schedule(order, |headers|)
    ensures r.Some? <==> forall k :: 0 <= k < |headers| ==> Fetched(root, peers, headers, k).Some?
    ensures r.Some? ==> |r.value| == |headers|
    ensures r.Some? ==> forall k :: 0 <= k < |headers| ==> r.value[k] == Fetched(root, peers, headers, k).value
  {
    var batch := new Option<Compacted>[|headers|](_ => None);
    var batchErr := false;
    ghost var culprit: nat := 0;
    for w := 0 to |order|
      invariant batchErr ==> culprit < |headers| && Fetched(root, peers, headers, culprit).None?
      invariant !batchErr ==> Written(root, peers, headers, batch[..], order[..w])
    {
      assert order[w] in order;
      var failed := WorkerTurn(root, peers, headers, order[w], batch, order[..w]);
      if failed {
        batchErr := true;
        culprit := order[w];
      }
      assert order[..w + 1] == order[..w] + [order[w]];
    }
    if batchErr { return None; }
    EverySlotScheduled(order, |headers|);
    assert order[..|order|] == order;
    ghost var slots := batch[..];
    assert forall k :: 0 <= k < |headers| ==> slots[k] == batch[k] && slots[k] == Fetched(root, peers, headers, k);
    var result := seq(|headers|, k requires 0 <= k < |headers| && batch[k].Some? reads batch => batch[k].value);
    return Some(result);
  }

  /** TryFillTipSet: the messages are there, or not all of them are, or it fails. */
  datatype Filling = Local(fts: FullTipSet) | Absent | Broken

  /** What surrounds the iteration: local messages, peers, worker scheduling, the callback and the message store. */
  datatype Feed = Feed(root: Root, fill: TipSet -> Filling, peers: Peers, order: nat -> seq<nat>,
                       callback: FullTipSet -> bool, persist: Compacted -> bool) {

    ghost predicate Conforms() {
      && PeersConform(peers)
      && (forall ts: TipSet {:trigger fill(ts)} :: fill(ts).Local? ==> fill(ts).fts.Fills(ts))
      && (forall i: nat {:trigger order(i)} :: Schedule(order(i), BatchSize(i)))
    }
  }

  function BatchSize(i: nat): nat {
    var size := CONCURRENT_SYNC_REQUESTS * SYNC_REQUEST_BATCH_SIZE;
    if i < size then i + 1 else size
  }

  /** A batch takes 128 headers, or all that are left. */
  lemma BatchSizeIs(i: nat)
    ensures 1 <= BatchSize(i) <= 128 && BatchSize(i) <= i + 1 && (BatchSize(i) == 128 || BatchSize(i) == i + 1)
  {
  }

  /** The messages fetched for header h, in the batch that was fetched for lack of those of header i. */
  ghost predicate FetchedFor(feed: Feed, headers: seq<TipSet>, i: nat, h: nat, cm: Compacted)
    requires feed.Conforms()
  {
    && h <= i < |headers| && i < h + BatchSize(i) && feed.fill(headers[i]).Absent?
    && Fetched(feed.root, feed.peers, headers[i + 1 - BatchSize(i)..i + 1], h - (i + 1 - BatchSize(i))) == Some(cm)
  }

  /** A full tipset delivered for header h is made of the messages fetched for it, and the header commits to them. */
  ghost predicate Zipped(feed: Feed, headers: seq<TipSet>, h: nat, fts: FullTipSet, cm: Compacted)
    requires feed.Conforms()
  {
    && h < |headers| && cm.Shaped(headers[h]) && FilledFrom(fts, headers[h], cm) && fts.Committed(feed.root)
    && exists i :: FetchedFor(feed, headers, i, h, cm)
  }

  ghost predicate LocalFor(feed: Feed, headers: seq<TipSet>, h: nat, fts: FullTipSet) {
    h < |headers| && fts.Fills(headers[h]) && feed.fill(headers[h]) == Local(fts)
  }

  /** What is delivered for a header: local messages, or fetched ones. */
  ghost predicate Supplied(feed: Feed, headers: seq<TipSet>, h: nat, fts: FullTipSet)
    requires feed.Conforms()
  {
    LocalFor(feed, headers, h, fts) || exists cm :: Zipped(feed, headers, h, fts, cm)
  }

  /** The messages were there, or what was fetched was stored. */
  ghost predicate Kept(feed: Feed, headers: seq<TipSet>, h: nat, fts: FullTipSet)
    requires feed.Conforms()
  {
    LocalFor(feed, headers, h, fts) || exists cm :: Zipped(feed, headers, h, fts, cm) && feed.persist(cm)
  }

  /** The messages of the first n delivered tipsets are in the store. */
  ghost predicate AllKept(feed: Feed, headers: seq<TipSet>, delivered: seq<FullTipSet>, n: nat)
    requires feed.Conforms() && n <= |delivered| <= |headers|
  {
    forall k :: 0 <= k < n ==> Kept(feed, headers, |headers| - 1 - k, delivered[k])
  }

  /**
    The callback has seen the headers from the last one up, each once; all but perhaps the latest were accepted and
    have their messages in the store.
   */
  ghost predicate Replayed(feed: Feed, headers: seq<TipSet>, delivered: seq<FullTipSet>)
    requires feed.Conforms()
  {
    && |delivered| <= |headers|
    && (forall k :: 0 <= k < |delivered| ==> Supplied(feed, headers, |headers| - 1 - k, delivered[k]))
    && (forall k :: 0 <= k < |delivered| - 1 ==> feed.callback(delivered[k]))
    && (|delivered| > 0 ==> AllKept(feed, headers, delivered, |delivered| - 1))
  }

  ghost predicate Accepted(feed: Feed, delivered: seq<FullTipSet>) {
    forall k :: 0 <= k < |delivered| ==> feed.callback(delivered[k])
  }

  datatype Outcome = Done | CallbackFailed | FillFailed | FetchFailed | ZipFailed | PersistFailed

  /**
    The iteration stops early only for a reason: a rejected tipset, a broken store, messages nobody supplied, or
    messages of the tipset at hand that cannot be stored.
   */
  ghost predicate Explained(feed: Feed, headers: seq<TipSet>, outcome: Outcome, delivered: seq<FullTipSet>)
    requires feed.Conforms()
  {
    match outcome
    case Done => |delivered| == |headers| && Accepted(feed, delivered) && AllKept(feed, headers, delivered, |delivered|)
    case CallbackFailed => |delivered| > 0 && !feed.callback(delivered[|delivered| - 1])
    case FetchFailed =>
      && |delivered| < |headers|
      && Accepted(feed, delivered) && AllKept(feed, headers, delivered, |delivered|)
      && FetchFails(feed, headers, |headers| - 1 - |delivered|)
    case FillFailed =>
      && |delivered| < |headers|
      && Accepted(feed, delivered) && AllKept(feed, headers, delivered, |delivered|)
      && feed.fill(headers[|headers| - 1 - |delivered|]).Broken?
    case ZipFailed => false
    case PersistFailed =>
      && 0 < |delivered| <= |headers|
      && Accepted(feed, delivered)
      && SomeStoreFails(feed, headers, |headers| - |delivered|)
  }

  /** Everything delivered so far was accepted and is in the store. */
  ghost predicate Settled(feed: Feed, headers: seq<TipSet>, delivered: seq<FullTipSet>)
    requires feed.Conforms()
  {
    Replayed(feed, headers, delivered) && Accepted(feed, delivered) && AllKept(feed, headers, delivered, |delivered|)
  }

  /** One tipset more. */
  lemma SettledThen(feed: Feed, headers: seq<TipSet>, delivered: seq<FullTipSet>, h: nat, fts: FullTipSet)
    requires feed.Conforms() && Settled(feed, headers, delivered) && |delivered| + 1 + h == |headers| && Supplied(feed, headers, h, fts)
    ensures Replayed(feed, headers, delivered + [fts])
    ensures feed.callback(fts) ==> Accepted(feed, delivered + [fts])
    ensures feed.callback(fts) && Kept(feed, headers, h, fts) ==> Settled(feed, headers, delivered + [fts])
  {
    SuppliedThen(feed, headers, delivered, h, fts);
    KeptThen(feed, headers, delivered, fts);
    assert (delivered + [fts])[|delivered|] == fts && |headers| - 1 - |delivered| == h;
  }

  lemma SuppliedThen(feed: Feed, headers: seq<TipSet>, delivered: seq<FullTipSet>, h: nat, fts: FullTipSet)
    requires feed.Conforms() && |delivered| + 1 + h == |headers| && Supplied(feed, headers, h, fts)
    requires forall k :: 0 <= k < |delivered| ==> Supplied(feed, headers, |headers| - 1 - k, delivered[k])
    ensures forall k :: 0 <= k < |delivered| + 1 ==> Supplied(feed, headers, |headers| - 1 - k, (delivered + [fts])[k])
  {
    var all := delivered + [fts];
    forall k | 0 <= k < |all| ensures Supplied(feed, headers, |headers| - 1 - k, all[k]) {
      if k < |delivered| { assert Supplied(feed, headers, |headers| - 1 - k, delivered[k]); }
    }
  }

  lemma KeptThen(feed: Feed, headers: seq<TipSet>, delivered: seq<FullTipSet>, fts: FullTipSet)
    requires feed.Conforms() && |delivered| < |headers| && AllKept(feed, headers, delivered, |delivered|)
    ensures AllKept(feed, headers, delivered + [fts], |delivered|)
  {
    var all := delivered + [fts];
    forall k | 0 <= k < |delivered| ensures Kept(feed, headers, |headers| - 1 - k, all[k]) {
      assert Kept(feed, headers, |headers| - 1 - k, delivered[k]);
    }
  }

  ghost predicate SomeStoreFails(feed: Feed, headers: seq<TipSet>, h: nat)
    requires feed.Conforms()
  {
    exists i :: h <= i < |headers| && StoreFails(feed, headers, i, h)
  }

  /** The messages fetched for header h, in the batch that was fetched for lack of those of header i, cannot be stored. */
  ghost predicate StoreFails(feed: Feed, headers: seq<TipSet>, i: nat, h: nat)
    requires feed.Conforms() && h <= i < |headers|
  {
    && feed.fill(headers[i]).Absent? && i < h + BatchSize(i)
    && var slice, k := headers[i + 1 - BatchSize(i)..i + 1], h - (i + 1 - BatchSize(i));
       Fetched(feed.root, feed.peers, slice, k).Some? && !feed.persist(Fetched(feed.root, feed.peers, slice, k).value)
  }

  ghost predicate FetchFails(feed: Feed, headers: seq<TipSet>, i: nat)
    requires feed.Conforms() && i < |headers|
  {
    var slice := headers[i + 1 - BatchSize(i)..i + 1];
    feed.fill(headers[i]).Absent? && exists k :: 0 <= k < |slice| && Fetched(feed.root, feed.peers, slice, k).None?
  }

  /** A batch of messages for the headers up to number i, in their shape and committed to by them. */
  ghost predicate GoodBatch(feed: Feed, headers: seq<TipSet>, i: nat, batch: seq<Compacted>)
    requires i < |headers|
  {
    && |batch| == BatchSize(i)
    && forall k :: 0 <= k < |batch| ==> GoodFor(feed, headers[i + 1 - |batch| + k], batch[k])
  }

  ghost predicate GoodFor(feed: Feed, ts: TipSet, cm: Compacted) {
    cm.Shaped(ts) && Meta(feed.root, ts, cm)
  }

  ghost predicate FetchedBatch(feed: Feed, headers: seq<TipSet>, i: nat, batch: seq<Compacted>)
    requires feed.Conforms() && i < |headers|
  {
    var slice := headers[i + 1 - BatchSize(i)..i + 1];
    && |batch| == |slice|
    && forall k {:trigger Fetched(feed.root, feed.peers, slice, k)} :: 0 <= k < |slice| ==>
         Fetched(feed.root, feed.peers, slice, k) == Some(batch[k])
  }

  lemma FetchedBatchIsGood(feed: Feed, headers: seq<TipSet>, i: nat, batch: seq<Compacted>)
    requires feed.Conforms() && i < |headers| && FetchedBatch(feed, headers, i, batch)
    ensures GoodBatch(feed, headers, i, batch)
  {
    var slice := headers[i + 1 - BatchSize(i)..i + 1];
    forall k | 0 <= k < |batch| ensures GoodFor(feed, headers[i + 1 - |batch| + k], batch[k]) {
      FetchedIsGood(feed.root, feed.peers, slice, k);
    }
  }

  method FetchBatch(feed: Feed, headers: seq<TipSet>, i: nat) returns (batch: Option<seq<Compacted>>)
    requires feed.Conforms() && i < |headers| && feed.fill(headers[i]).Absent?
    ensures batch.None? <==> FetchFails(feed, headers, i)
    ensures batch.Some? ==> FetchedBatch(feed, headers, i, batch.value)
  {
    batch := FetchMessages(feed.root, feed.peers, headers[i + 1 - BatchSize(i)..i + 1], feed.order(i));
  }

  lemma ZippedFrom(feed: Feed, headers: seq<TipSet>, i: nat, batch: seq<Compacted>, k: nat, fts: FullTipSet)
    requires feed.Conforms() && i < |headers| && feed.fill(headers[i]).Absent? && FetchedBatch(feed, headers, i, batch) && k < |batch|
    requires var h := i + 1 - |batch| + k; batch[k].Shaped(headers[h]) && FilledFrom(fts, headers[h], batch[k]) && fts.Committed(feed.root)
    ensures Zipped(feed, headers, i + 1 - |batch| + k, fts, batch[k])
  {
    assert Fetched(feed.root, feed.peers, headers[i + 1 - BatchSize(i)..i + 1], k) == Some(batch[k]);
    assert FetchedFor(feed, headers, i, i + 1 - |batch| + k, batch[k]);
  }

  /** One fetched batch, replayed from its last header down to its first. */
  method ReplayBatch(feed: Feed, headers: seq<TipSet>, i: nat, bstout: seq<Compacted>, before: seq<FullTipSet>)
    returns (outcome: Outcome, delivered: seq<FullTipSet>)
    requires feed.Conforms() && i < |headers| && |before| == |headers| - 1 - i && GoodBatch(feed, headers, i, bstout)
    requires feed.fill(headers[i]).Absent? && FetchedBatch(feed, headers, i, bstout) && Settled(feed, headers, before)
    ensures Replayed(feed, headers, delivered)
    ensures outcome.Done? ==> Settled(feed, headers, delivered) && |delivered| == |before| + |bstout|
    ensures outcome.Done? ==> forall k :: 0 <= k < |bstout| ==> feed.persist(bstout[k])
    ensures !outcome.Done? ==> outcome.CallbackFailed? || outcome.PersistFailed?
    ensures outcome.CallbackFailed? ==> Explained(feed, headers, outcome, delivered)
    ensures !outcome.Done? ==>
      && |before| < |delivered| <= |before| + |bstout|
      && forall k :: |before| + |bstout| - |delivered| < k < |bstout| ==> feed.persist(bstout[k])
    ensures outcome.PersistFailed? ==> Accepted(feed, delivered) && !feed.persist(bstout[|before| + |bstout| - |delivered|])
  {
    delivered := before;
    for bsi := 0 to |bstout|
      invariant Settled(feed, headers, delivered) && |delivered| == |before| + bsi
      invariant forall k :: |bstout| - bsi <= k < |bstout| ==> feed.persist(bstout[k])
    {
      outcome, delivered := ReplayOne(feed, headers, i, bstout, |bstout| - (bsi + 1), delivered);
      if !outcome.Done? { return; }
    }
    return Done, delivered;
  }

  /** One tipset of the batch: filled, handed to the callback, and its messages stored. */
  method ReplayOne(feed: Feed, headers: seq<TipSet>, ghost i: nat, bstout: seq<Compacted>, k: nat, before: seq<FullTipSet>)
    returns (outcome: Outcome, delivered: seq<FullTipSet>)
    requires feed.Conforms() && i < |headers| && GoodBatch(feed, headers, i, bstout) && k < |bstout|
    requires feed.fill(headers[i]).Absent? && FetchedBatch(feed, headers, i, bstout)
    requires Settled(feed, headers, before) && |before| + 1 + (i + 1 - |bstout| + k) == |headers|
    ensures Replayed(feed, headers, delivered) && |delivered| == |before| + 1
    ensures outcome.Done? ==> Settled(feed, headers, delivered) && feed.persist(bstout[k])
    ensures outcome.Done? || outcome.CallbackFailed? || outcome.PersistFailed?
    ensures outcome.CallbackFailed? ==> Explained(feed, headers, outcome, delivered)
    ensures outcome.PersistFailed? ==> Accepted(feed, delivered) && !feed.persist(bstout[k])
  {
    var h := |headers| - 1 - |before|;
    assert GoodFor(feed, headers[i + 1 - |bstout| + k], bstout[k]);
    var fts := Zip(feed.root, headers[h], bstout[k]);
    if fts.None? { return ZipFailed, before; }
    ZippedFrom(feed, headers, i, bstout, k, fts.value);
    SettledThen(feed, headers, before, h, fts.value);
    delivered := before + [fts.value];
    if !feed.callback(fts.value) { return CallbackFailed, delivered; }
    if !feed.persist(bstout[k]) { return PersistFailed, delivered; }
    return Done, delivered;
  }

  lemma StoringFails(feed: Feed, headers: seq<TipSet>, i: nat, batch: seq<Compacted>, delivered: nat)
    requires feed.Conforms() && i < |headers| && FetchedBatch(feed, headers, i, batch) && feed.fill(headers[i]).Absent?
    requires |headers| - 1 - i < delivered <= |headers| - 1 - i + |batch| && !feed.persist(batch[|headers| - 1 - i + |batch| - delivered])
    ensures SomeStoreFails(feed, headers, |headers| - delivered)
  {
    var k := |headers| - 1 - i + |batch| - delivered;
    assert Fetched(feed.root, feed.peers, headers[i + 1 - BatchSize(i)..i + 1], k) == Some(batch[k]);
    assert StoreFails(feed, headers, i, |headers| - delivered);
  }

  /** The batch that ends with header i, fetched because its messages are absent, and replayed. */
  method FetchAndReplay(feed: Feed, headers: seq<TipSet>, i: nat, before: seq<FullTipSet>)
    returns (outcome: Outcome, delivered: seq<FullTipSet>)
    requires feed.Conforms() && i < |headers| && |before| == |headers| - 1 - i && feed.fill(headers[i]).Absent?
    requires Settled(feed, headers, before)
    ensures Replayed(feed, headers, delivered)
    ensures outcome.Done? ==> Settled(feed, headers, delivered) && |delivered| == |before| + BatchSize(i)
    ensures !outcome.Done? ==> Explained(feed, headers, outcome, delivered)
  {
    var bstout := FetchBatch(feed, headers, i);
    if bstout.None? { return FetchFailed, before; }
    FetchedBatchIsGood(feed, headers, i, bstout.value);
    outcome, delivered := ReplayBatch(feed, headers, i, bstout.value, before);
    if outcome.PersistFailed? { StoringFails(feed, headers, i, bstout.value, |delivered|); }
  }

  /** Every header reaches the callback exactly once, oldest first, whatever mix of local and fetched messages. */
  method IterFullTipsets(feed: Feed, headers: seq<TipSet>) returns (outcome: Outcome, delivered: seq<FullTipSet>)
    requires feed.Conforms()
    ensures Replayed(feed, headers, delivered)
    ensures Explained(feed, headers, outcome, delivered)
  {
    delivered := [];
    var i := |headers| - 1;
    while i >= 0
      invariant -1 <= i < |headers| && |delivered| == |headers| - 1 - i
      invariant Settled(feed, headers, delivered)
    {
      var fts := feed.fill(headers[i]);
      if fts.Broken? { return FillFailed, delivered; }
      if fts.Local? {
        assert LocalFor(feed, headers, i, fts.fts);
        SettledThen(feed, headers, delivered, i, fts.fts);
        delivered := delivered + [fts.fts];
        if !feed.callback(fts.fts) { return CallbackFailed, delivered; }
        i := i - 1;
        continue;
      }
      outcome, delivered := FetchAndReplay(feed, headers, i, delivered);
      if !outcome.Done? { return; }
      i := i - BatchSize(i);
    }
    return Done, delivered;
  }
}
