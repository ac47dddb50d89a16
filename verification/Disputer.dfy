/** The window-post disputer: which miner's deadline is looked at in which epoch, over every run. */
module Disputer {
  import opened Prelude

  const CONFIDENCE: int := 10

  type Miner = nat
  type Epoch = int

  datatype Deadline = Deadline(miner: Miner, index: nat)

  type Buckets = map<Epoch, seq<Deadline>>

  /** The node's answers during one step: a miner's close epoch and deadline index, its proof counts, dry runs. */
  datatype Api = Api(proving: Miner -> Option<(Epoch, nat)>, deadlines: Miner -> Option<seq<nat>>, succeeds: (Deadline, nat) -> bool)

  datatype Change = Apply(height: Epoch) | Revert(height: Epoch) | Unexpected

  // Disputes -----------------------------------------------------------------------------------------------------

  /** The posts of a deadline that a dispute would succeed against. */
  ghost function Disputable(api: Api, dl: Deadline, count: nat): seq<(Deadline, nat)> {
    if count == 0 then []
    else Disputable(api, dl, count - 1) + if api.succeeds(dl, count - 1) then [(dl, count - 1)] else []
  }

  lemma {:induction false} DisputableExactly(api: Api, dl: Deadline, count: nat, post: nat)
    ensures (dl, post) in Disputable(api, dl, count) <==> post < count && api.succeeds(dl, post)
    decreases count
  {
    if count > 0 { DisputableExactly(api, dl, count - 1, post); }
  }

  method MakeDisputes(api: Api, dl: Deadline, count: nat) returns (disputes: seq<(Deadline, nat)>)
    ensures disputes == Disputable(api, dl, count)
  {
    disputes := [];
    for i := 0 to count
      invariant disputes == Disputable(api, dl, i)
    {
      if api.succeeds(dl, i) { disputes := disputes + [(dl, i)]; }
    }
  }

  /** What the node is asked about a deadline: its proofs, the disputes that would succeed and the miner's next one. */
  method Ask(api: Api, dl: Deadline) returns (disputes: seq<(Deadline, nat)>, proving: Option<(Epoch, nat)>)
    ensures proving.Some? <==> Answered(api, dl)
    ensures proving.Some? ==> proving == api.proving(dl.miner)
    ensures proving.Some? ==> disputes == Disputable(api, dl, api.deadlines(dl.miner).value[dl.index])
  {
    var deadlines := api.deadlines(dl.miner);
    if deadlines.None? { return [], None; }
    if dl.index >= |deadlines.value| { return [], None; }
    disputes := MakeDisputes(api, dl, deadlines.value[dl.index]);
    proving := api.proving(dl.miner);
  }

  // Buckets ------------------------------------------------------------------------------------------------------

  function Put(buckets: Buckets, key: Epoch, dl: Deadline): Buckets {
    buckets[key := (if key in buckets then buckets[key] else []) + [dl]]
  }

  ghost predicate Holds(bucket: seq<Deadline>, miner: Miner) {
    exists i :: 0 <= i < |bucket| && bucket[i].miner == miner
  }

  ghost predicate Apart(bucket: seq<Deadline>) {
    forall i, j :: 0 <= i < j < |bucket| ==> bucket[i].miner != bucket[j].miner
  }

  /** Every miner at home in an epoch is in that epoch's bucket, once, and in no other. */
  ghost predicate Placed(buckets: Buckets, home: map<Miner, Epoch>) {
    && (forall k :: k in buckets ==> Apart(buckets[k]))
    && (forall k, m :: k in buckets && Holds(buckets[k], m) ==> m in home && home[m] == k)
    && (forall m :: m in home ==> home[m] in buckets && Holds(buckets[home[m]], m))
  }

  lemma HoldsSnoc(bucket: seq<Deadline>, dl: Deadline, m: Miner)
    ensures Holds(bucket + [dl], m) <==> Holds(bucket, m) || m == dl.miner
  {
    var longer := bucket + [dl];
    if Holds(bucket, m) { var i :| 0 <= i < |bucket| && bucket[i].miner == m; assert longer[i].miner == m; }
    if m == dl.miner { assert longer[|bucket|].miner == m; }
  }

  lemma PutPlaced(buckets: Buckets, home: map<Miner, Epoch>, key: Epoch, dl: Deadline)
    requires Placed(buckets, home) && dl.miner !in home
    ensures Placed(Put(buckets, key, dl), home[dl.miner := key])
  {
    var bucket := if key in buckets then buckets[key] else [];
    forall m ensures Holds(bucket + [dl], m) <==> Holds(bucket, m) || m == dl.miner { HoldsSnoc(bucket, dl, m); }
    forall i | 0 <= i < |bucket| ensures bucket[i].miner != dl.miner { assert Holds(bucket, bucket[i].miner); }
  }

  ghost function Away(home: map<Miner, Epoch>, bucket: seq<Deadline>): map<Miner, Epoch> {
    map m | m in home && !Holds(bucket, m) :: home[m]
  }

  lemma TakePlaced(buckets: Buckets, home: map<Miner, Epoch>, key: Epoch)
    requires Placed(buckets, home) && key in buckets
    ensures Placed(buckets - {key}, Away(home, buckets[key]))
    ensures forall m :: Holds(buckets[key], m) ==> m in home && m !in Away(home, buckets[key])
  {
    forall k, m | k in buckets - {key} && Holds(buckets[k], m) ensures m in Away(home, buckets[key]) {
      assert home[m] == k;
    }
  }

  // Runs ---------------------------------------------------------------------------------------------------------

  ghost predicate Timely(api: Api, epoch: Epoch, m: Miner) {
    api.proving(m).Some? ==> api.proving(m).value.0 + CONFIDENCE > epoch
  }

  /**
    Between iterations. `first` is each known miner's bucket when it was found. A miner is in exactly one bucket,
    never one that was passed, unless its first bucket came up no later than the start epoch.
   */
  ghost predicate SoundWith(buckets: Buckets, home: map<Miner, Epoch>, first: map<Miner, Epoch>, lastEpoch: Epoch, startEpoch: Epoch) {
    && Placed(buckets, home)
    && (forall k :: k in buckets ==> k >= lastEpoch)
    && Followed(home, first, lastEpoch, startEpoch)
  }

  ghost predicate Sound(buckets: Buckets, first: map<Miner, Epoch>, lastEpoch: Epoch, startEpoch: Epoch) {
    exists home :: SoundWith(buckets, home, first, lastEpoch, startEpoch)
  }

  ghost predicate Followed(home: map<Miner, Epoch>, first: map<Miner, Epoch>, lastEpoch: Epoch, startEpoch: Epoch) {
    && (forall m :: m in home <==> m in first && !Lost(first, lastEpoch, startEpoch, m))
    && (forall m :: m in home ==> home[m] == first[m] || (first[m] > startEpoch && home[m] > startEpoch))
  }

  ghost predicate Lost(first: map<Miner, Epoch>, lastEpoch: Epoch, startEpoch: Epoch, m: Miner) {
    m in first && first[m] <= startEpoch && first[m] < lastEpoch
  }

  ghost predicate InOneBucket(buckets: Buckets, m: Miner) {
    exists k :: k in buckets && OnlyIn(buckets, k, m)
  }

  ghost predicate OnlyIn(buckets: Buckets, k: Epoch, m: Miner)
    requires k in buckets
  {
    && (exists i :: 0 <= i < |buckets[k]| && OnlyAt(buckets[k], i, m))
    && forall j :: j in buckets && j != k ==> !Holds(buckets[j], m)
  }

  ghost predicate OnlyAt(bucket: seq<Deadline>, i: nat, m: Miner)
    requires i < |bucket|
  {
    bucket[i].miner == m && forall j :: 0 <= j < |bucket| && j != i ==> bucket[j].miner != m
  }

  lemma AtHomeIffFollowed(buckets: Buckets, home: map<Miner, Epoch>, m: Miner)
    requires Placed(buckets, home)
    ensures InOneBucket(buckets, m) <==> m in home
    ensures m !in home ==> forall k :: k in buckets ==> !Holds(buckets[k], m)
  {
    if m in home {
      var k := home[m];
      var i :| 0 <= i < |buckets[k]| && buckets[k][i].miner == m;
      assert OnlyAt(buckets[k], i, m);
      assert OnlyIn(buckets, k, m);
    } else if InOneBucket(buckets, m) {
      var k :| k in buckets && OnlyIn(buckets, k, m);
      assert Holds(buckets[k], m);
    }
  }

  /** Exactly when a known miner is still followed, in one bucket and once. */
  lemma FollowedIff(buckets: Buckets, first: map<Miner, Epoch>, lastEpoch: Epoch, startEpoch: Epoch, m: Miner)
    requires Sound(buckets, first, lastEpoch, startEpoch) && m in first
    ensures InOneBucket(buckets, m) <==> first[m] > startEpoch || first[m] >= lastEpoch
    ensures !InOneBucket(buckets, m) ==> forall k :: k in buckets ==> !Holds(buckets[k], m)
  {
    var home :| SoundWith(buckets, home, first, lastEpoch, startEpoch);
    AtHomeIffFollowed(buckets, home, m);
    assert m in home <==> !Lost(first, lastEpoch, startEpoch, m);
  }

  /** A new miner's bucket is ahead, so it is not lost yet. */
  lemma DiscoverSound(buckets: Buckets, first: map<Miner, Epoch>, lastEpoch: Epoch, startEpoch: Epoch, key: Epoch, dl: Deadline)
    requires Sound(buckets, first, lastEpoch, startEpoch) && dl.miner !in first && key > lastEpoch
    ensures Sound(Put(buckets, key, dl), first[dl.miner := key], lastEpoch, startEpoch)
  {
    var home :| SoundWith(buckets, home, first, lastEpoch, startEpoch);
    DiscoverSoundWith(buckets, home, first, lastEpoch, startEpoch, key, dl);
  }

  lemma DiscoverSoundWith(buckets: Buckets, home: map<Miner, Epoch>, first: map<Miner, Epoch>, lastEpoch: Epoch, startEpoch: Epoch, key: Epoch, dl: Deadline)
    requires SoundWith(buckets, home, first, lastEpoch, startEpoch) && dl.miner !in first && key > lastEpoch
    ensures SoundWith(Put(buckets, key, dl), home[dl.miner := key], first[dl.miner := key], lastEpoch, startEpoch)
  {
    PutPlaced(buckets, home, key, dl);
  }

  ghost predicate TimelyNow(api: Api, epoch: Epoch) {
    forall m :: Timely(api, epoch, m)
  }

  /** Whenever a deadline is fetched, its close epoch plus the confidence is still ahead. */
  ghost predicate AlwaysTimely(apis: Epoch -> Api) {
    forall e, m {:trigger Timely(apis(e), e, m)} :: Timely(apis(e), e, m)
  }

  ghost predicate AllTimely(api: Api, epoch: Epoch, dls: seq<Deadline>) {
    forall i :: 0 <= i < |dls| ==> Timely(api, epoch, dls[i].miner)
  }

  // Applying an epoch --------------------------------------------------------------------------------------------

  /** The node answers everything that is asked about a deadline. */
  ghost predicate Answered(api: Api, dl: Deadline) {
    api.deadlines(dl.miner).Some? && dl.index < |api.deadlines(dl.miner).value| && api.proving(dl.miner).Some?
  }

  ghost predicate AllAnswered(api: Api, dls: seq<Deadline>) {
    forall i :: 0 <= i < |dls| ==> Answered(api, dls[i])
  }

  ghost function Disputes(api: Api, dls: seq<Deadline>): seq<(Deadline, nat)>
    requires AllAnswered(api, dls)
  {
    if dls == [] then []
    else
      var dl := dls[|dls| - 1];
      assert Answered(api, dl);
      Disputes(api, dls[..|dls| - 1]) + Disputable(api, dl, api.deadlines(dl.miner).value[dl.index])
  }

  lemma Worked(api: Api, dls: seq<Deadline>, i: nat)
    requires i < |dls| && AllAnswered(api, dls[..i]) && Answered(api, dls[i])
    ensures AllAnswered(api, dls[..i + 1])
    ensures Disputes(api, dls[..i + 1]) == Disputes(api, dls[..i]) + Disputable(api, dls[i], api.deadlines(dls[i].miner).value[dls[i].index])
  {
    assert dls[..i + 1] == dls[..i] + [dls[i]];
    assert dls[..i + 1][..i] == dls[..i];
  }

  /** The buckets with every listed miner put back where its next deadline closes. */
  ghost function Refiled(api: Api, buckets: Buckets, dls: seq<Deadline>): Buckets
    requires AllAnswered(api, dls)
    decreases |dls|
  {
    if dls == [] then buckets
    else
      assert Answered(api, dls[0]);
      Refiled(api, Moved(api, buckets, dls[0].miner), dls[1..])
  }

  ghost function Moved(api: Api, buckets: Buckets, m: Miner): Buckets
    requires api.proving(m).Some?
  {
    Put(buckets, api.proving(m).value.0 + CONFIDENCE, Deadline(m, api.proving(m).value.1))
  }

  /** The miner's bucket is that of the tenth epoch after its deadline closes; all others stay as they are. */
  lemma MovedIs(api: Api, buckets: Buckets, m: Miner)
    requires api.proving(m).Some?
    ensures var moved, key := Moved(api, buckets, m), api.proving(m).value.0 + 10;
      && moved.Keys == buckets.Keys + {key} && At(moved, key) == At(buckets, key) + [Deadline(m, api.proving(m).value.1)]
      && forall k :: k in buckets && k != key ==> moved[k] == buckets[k]
  {
  }

  /** Refiling what is left after i deadlines comes to refiling all of them, if all are answered. */
  ghost predicate SoFar(api: Api, before: Buckets, buckets: Buckets, dls: seq<Deadline>, i: nat)
    requires i <= |dls|
  {
    AllAnswered(api, dls) ==> AllAnswered(api, dls[i..]) && Refiled(api, buckets, dls[i..]) == Refiled(api, before, dls)
  }

  lemma SoFarNext(api: Api, before: Buckets, buckets: Buckets, dls: seq<Deadline>, i: nat)
    requires i < |dls| && SoFar(api, before, buckets, dls, i) && api.proving(dls[i].miner).Some?
    ensures SoFar(api, before, Moved(api, buckets, dls[i].miner), dls, i + 1)
  {
    assert dls[i..][0] == dls[i] && dls[i..][1..] == dls[i + 1..];
  }

  /** What one epoch comes to: nothing before the start cutoff, then the disputes and the refiled deadlines of its bucket. */
  ghost predicate Applied(api: Api, startEpoch: Epoch, epoch: Epoch, before: Buckets, after: Buckets, ok: bool, disputes: seq<(Deadline, nat)>) {
    var dls, rest := At(before, epoch), before - {epoch};
    && (ok <==> startEpoch >= epoch || AllAnswered(api, dls))
    && (ok && startEpoch >= epoch ==> disputes == [] && after == rest)
    && (ok && startEpoch < epoch ==> disputes == Disputes(api, dls) && after == Refiled(api, rest, dls))
  }

  /** While a taken bucket is worked through: the miners still to come are in no bucket, all others are ahead. */
  ghost predicate Midway(buckets: Buckets, home: map<Miner, Epoch>, before: map<Miner, Epoch>, left: seq<Deadline>, epoch: Epoch) {
    && Placed(buckets, home) && Apart(left)
    && (forall k :: k in buckets ==> k > epoch)
    && (forall m :: m in home <==> m in before && !Holds(left, m))
    && (forall m :: m in home ==> home[m] > epoch)
    && (forall m :: Holds(left, m) ==> m in before && before[m] == epoch)
    && (forall m :: m in home ==> home[m] == before[m] || before[m] == epoch)
  }

  ghost function At(buckets: Buckets, epoch: Epoch): seq<Deadline> {
    if epoch in buckets then buckets[epoch] else []
  }

  lemma TakenIsMidway(buckets: Buckets, home: map<Miner, Epoch>, epoch: Epoch)
    requires Placed(buckets, home) && forall k :: k in buckets ==> k >= epoch
    ensures Midway(buckets - {epoch}, Away(home, At(buckets, epoch)), home, At(buckets, epoch), epoch)
  {
    if epoch in buckets {
      TakePlaced(buckets, home, epoch);
    } else {
      assert buckets - {epoch} == buckets && Away(home, []) == home;
    }
  }

  lemma MidwayStep(buckets: Buckets, home: map<Miner, Epoch>, before: map<Miner, Epoch>, left: seq<Deadline>, epoch: Epoch, key: Epoch, dl: Deadline)
    requires Midway(buckets, home, before, left, epoch) && |left| > 0 && dl.miner == left[0].miner && key > epoch
    ensures Midway(Put(buckets, key, dl), home[dl.miner := key], before, left[1..], epoch)
  {
    assert Holds(left, dl.miner);
    forall m ensures Holds(left, m) <==> Holds(left[1..], m) || m == dl.miner {
      if Holds(left, m) { var i :| 0 <= i < |left| && left[i].miner == m; if i > 0 { assert left[1..][i - 1].miner == m; } }
      if Holds(left[1..], m) { var i :| 0 <= i < |left| - 1 && left[1..][i].miner == m; assert left[i + 1].miner == m; }
    }
    assert !Holds(left[1..], dl.miner);
    PutPlaced(buckets, home, key, dl);
  }

  /** A whole bucket worked through: nobody is lost. */
  lemma WorkedSound(buckets: Buckets, home: map<Miner, Epoch>, before: map<Miner, Epoch>, first: map<Miner, Epoch>, epoch: Epoch, startEpoch: Epoch)
    requires Midway(buckets, home, before, [], epoch) && startEpoch < epoch && Followed(before, first, epoch, startEpoch)
    ensures SoundWith(buckets, home, first, epoch + 1, startEpoch)
  {
  }

  /** A bucket dropped before the start cutoff: its miners, and no others, are lost. */
  lemma DroppedSound(buckets: Buckets, home: map<Miner, Epoch>, first: map<Miner, Epoch>, epoch: Epoch, startEpoch: Epoch)
    requires SoundWith(buckets, home, first, epoch, startEpoch) && epoch <= startEpoch
    ensures SoundWith(buckets - {epoch}, Away(home, At(buckets, epoch)), first, epoch + 1, startEpoch)
  {
    TakenIsMidway(buckets, home, epoch);
    forall m | m in home ensures Holds(At(buckets, epoch), m) <==> first[m] == epoch {
      assert Holds(buckets[home[m]], m);
    }
  }

  /** A taken bucket is put back, one miner after another: in the end all are ahead again. */
  lemma {:induction false} RefiledMidway(api: Api, buckets: Buckets, home: map<Miner, Epoch>, before: map<Miner, Epoch>, dls: seq<Deadline>, epoch: Epoch)
    returns (home': map<Miner, Epoch>)
    requires AllAnswered(api, dls) && AllTimely(api, epoch, dls) && Midway(buckets, home, before, dls, epoch)
    ensures Midway(Refiled(api, buckets, dls), home', before, [], epoch)
    decreases |dls|
  {
    if dls == [] { return home; }
    var m := dls[0].miner;
    assert Answered(api, dls[0]) && Timely(api, epoch, m);
    var key := api.proving(m).value.0 + CONFIDENCE;
    MidwayStep(buckets, home, before, dls, epoch, key, Deadline(m, api.proving(m).value.1));
    home' := RefiledMidway(api, Moved(api, buckets, m), home[m := key], before, dls[1..], epoch);
  }

  /** One epoch keeps the buckets sound when the deadlines that it fetches are timely. */
  lemma AppliedSound(api: Api, startEpoch: Epoch, epoch: Epoch, before: Buckets, after: Buckets, disputes: seq<(Deadline, nat)>, first: map<Miner, Epoch>)
    requires Applied(api, startEpoch, epoch, before, after, true, disputes) && Sound(before, first, epoch, startEpoch)
    requires startEpoch < epoch ==> AllTimely(api, epoch, At(before, epoch))
    ensures Sound(after, first, epoch + 1, startEpoch)
  {
    var home :| SoundWith(before, home, first, epoch, startEpoch);
    if startEpoch >= epoch {
      DroppedSound(before, home, first, epoch, startEpoch);
    } else {
      var dls := At(before, epoch);
      TakenIsMidway(before, home, epoch);
      var home' := RefiledMidway(api, before - {epoch}, Away(home, dls), home, dls, epoch);
      WorkedSound(after, home', home, first, epoch, startEpoch);
    }
  }

  ghost predicate Extends(before: map<Miner, Epoch>, after: map<Miner, Epoch>) {
    forall m :: m in before ==> m in after && after[m] == before[m]
  }

  ghost predicate Consecutive(epochs: seq<Epoch>, from: Epoch) {
    forall i :: 0 <= i < |epochs| ==> epochs[i] == from + i
  }

  ghost predicate ListedOnce(miners: seq<Miner>) {
    forall i, j :: 0 <= i < j < |miners| ==> miners[i] != miners[j]
  }

  ghost predicate AllAhead(first: map<Miner, Epoch>, epoch: Epoch) {
    forall m :: m in first ==> first[m] > epoch
  }

  lemma KeysWith(first: map<Miner, Epoch>, m: Miner, key: Epoch)
    ensures first[m := key].Keys == first.Keys + {m}
  {
  }

  /** What holds of a regular run: the buckets are sound, and every miner was found ahead of the first epoch. */
  ghost predicate Orderly(buckets: Buckets, first: map<Miner, Epoch>, lastEpoch: Epoch, startEpoch: Epoch, firstEpoch: Epoch) {
    Sound(buckets, first, lastEpoch, startEpoch) && AllAhead(first, firstEpoch) && firstEpoch <= lastEpoch
  }

  lemma DiscoverOrderly(buckets: Buckets, first: map<Miner, Epoch>, lastEpoch: Epoch, startEpoch: Epoch, firstEpoch: Epoch, key: Epoch, dl: Deadline)
    requires Orderly(buckets, first, lastEpoch, startEpoch, firstEpoch) && dl.miner !in first && key > lastEpoch
    ensures Orderly(Put(buckets, key, dl), first[dl.miner := key], lastEpoch, startEpoch, firstEpoch)
  {
    DiscoverSound(buckets, first, lastEpoch, startEpoch, key, dl);
  }

  ghost predicate AllProving(api: Api, miners: seq<Miner>) {
    forall i :: 0 <= i < |miners| ==> api.proving(miners[i]).Some?
  }

  ghost function Members(miners: seq<Miner>): set<Miner> {
    set m | m in miners
  }

  lemma MembersStep(api: Api, miners: seq<Miner>, i: nat)
    requires i < |miners|
    ensures Members(miners[..i + 1]) == Members(miners[..i]) + {miners[i]}
    ensures AllProving(api, miners[..i + 1]) <==> AllProving(api, miners[..i]) && api.proving(miners[i]).Some?
    ensures AllProving(api, miners) ==> api.proving(miners[i]).Some?
    ensures ListedOnce(miners) ==> miners[i] !in Members(miners[..i])
    ensures miners[i..][0] == miners[i] && miners[i..][1..] == miners[i + 1..]
  {
    assert miners[..i + 1] == miners[..i] + [miners[i]];
    assert miners[..i + 1][i] == miners[i] && forall j :: 0 <= j < i ==> miners[..i + 1][j] == miners[..i][j];
  }

  /** A start epoch that is not beyond the first head never loses a miner. */
  lemma NobodyLost(buckets: Buckets, first: map<Miner, Epoch>, lastEpoch: Epoch, startEpoch: Epoch, firstEpoch: Epoch)
    requires Sound(buckets, first, lastEpoch, startEpoch) && AllAhead(first, firstEpoch) && startEpoch <= firstEpoch
    ensures forall m :: m in first ==> InOneBucket(buckets, m)
  {
    forall m | m in first ensures InOneBucket(buckets, m) { FollowedIff(buckets, first, lastEpoch, startEpoch, m); }
  }

  /** With every bucket ahead there is nothing to purge. */
  lemma NothingPassed(buckets: Buckets, first: map<Miner, Epoch>, lastEpoch: Epoch, startEpoch: Epoch)
    requires Sound(buckets, first, lastEpoch, startEpoch)
    ensures forall k :: k in buckets ==> k >= lastEpoch
  {
    var home :| SoundWith(buckets, home, first, lastEpoch, startEpoch);
  }

  // What every event comes to ------------------------------------------------------------------------------------

  /** Where the disputer stands: its buckets, the disputes it has sent, the miners it knows and the epochs it has reached. */
  datatype Standing = Standing(buckets: Buckets, sent: seq<(Deadline, nat)>, known: set<Miner>, lastEpoch: Epoch, lastCheck: Epoch)

  /** The epoch that is due: dropped before the cutoff; otherwise its disputes are sent and its deadlines put back. */
  ghost function EpochDone(api: Api, startEpoch: Epoch, s: Standing): (r: Option<Standing>)
    ensures r.Some? ==> r.value.lastEpoch == s.lastEpoch + 1
  {
    var dls, rest := At(s.buckets, s.lastEpoch), s.buckets - {s.lastEpoch};
    if startEpoch >= s.lastEpoch then Some(s.(buckets := rest, lastEpoch := s.lastEpoch + 1))
    else if AllAnswered(api, dls) then
      Some(s.(buckets := Refiled(api, rest, dls), sent := s.sent + Disputes(api, dls), lastEpoch := s.lastEpoch + 1))
    else None
  }

  /** An applied tipset: every epoch that is due up to its height. */
  ghost function TipSetDone(apis: Epoch -> Api, startEpoch: Epoch, height: Epoch, s: Standing): Option<Standing>
    decreases height - s.lastEpoch
  {
    if s.lastEpoch > height then Some(s)
    else
      var next := EpochDone(apis(s.lastEpoch), startEpoch, s);
      if next.None? then None else TipSetDone(apis, startEpoch, height, next.value)
  }

  ghost function ChangesDone(apis: Epoch -> Api, startEpoch: Epoch, changes: seq<Change>, s: Standing): Option<Standing>
    decreases |changes|
  {
    if changes == [] then Some(s)
    else
      match changes[0]
      case Apply(height) =>
        var next := TipSetDone(apis, startEpoch, height, s);
        if next.None? then None else ChangesDone(apis, startEpoch, changes[1..], next.value)
      case Revert(_) => ChangesDone(apis, startEpoch, changes[1..], s)
      case Unexpected => None
  }

  /** Listed miners, one after another; in a status check the known ones are left alone. */
  ghost function Joined(api: Api, miners: seq<Miner>, onlyNew: bool, s: Standing): Option<Standing>
    decreases |miners|
  {
    if miners == [] then Some(s)
    else if onlyNew && miners[0] in s.known then Joined(api, miners[1..], onlyNew, s)
    else if api.proving(miners[0]).None? then None
    else Joined(api, miners[1..], onlyNew, s.(buckets := Moved(api, s.buckets, miners[0]), known := s.known + {miners[0]}))
  }

  ghost function Purged(s: Standing): Standing {
    s.(buckets := map k | k in s.buckets && !(s.lastCheck <= k < s.lastEpoch) :: s.buckets[k], lastCheck := s.lastEpoch)
  }

  ghost function Happened(startEpoch: Epoch, e: Event, s: Standing): Option<Standing> {
    match e
    case Heads(apis, changes) => ChangesDone(apis, startEpoch, changes, s)
    case Tick(api, miners) =>
      var found := Joined(api, miners, true, s);
      if found.None? then None else Some(Purged(found.value))
  }

  ghost function AllHappened(startEpoch: Epoch, events: seq<Event>, s: Standing): Option<Standing>
    decreases |events|
  {
    if events == [] then Some(s)
    else
      var next := Happened(startEpoch, events[0], s);
      if next.None? then None else AllHappened(startEpoch, events[1..], next.value)
  }

  datatype Event = Heads(apis: Epoch -> Api, changes: seq<Change>) | Tick(api: Api, miners: seq<Miner>)

  /** The next epoch after a notification: one past the highest applied height, never going back. */
  ghost function Reached(lastEpoch: Epoch, changes: seq<Change>): Epoch {
    if changes == [] then lastEpoch
    else
      var so := Reached(lastEpoch, changes[..|changes| - 1]);
      match changes[|changes| - 1]
      case Apply(height) => if height >= so then height + 1 else so
      case _ => so
  }

  ghost function EpochThen(lastEpoch: Epoch, e: Event): Epoch {
    match e
    case Heads(_, changes) => Reached(lastEpoch, changes)
    case Tick(_, _) => lastEpoch
  }

  /** The next epoch after some events. */
  ghost function EpochAfter(head: Epoch, events: seq<Event>): Epoch {
    if events == [] then head else EpochThen(EpochAfter(head, events[..|events| - 1]), events[|events| - 1])
  }

  /** Every deadline that the node gives at an event is still ahead. */
  ghost predicate EventTimely(lastEpoch: Epoch, e: Event) {
    match e
    case Heads(apis, _) => AlwaysTimely(apis)
    case Tick(api, _) => TimelyNow(api, lastEpoch)
  }

  ghost predicate EventsTimely(head: Epoch, events: seq<Event>) {
    forall i :: 0 <= i < |events| ==> EventTimely(EpochAfter(head, events[..i]), events[i])
  }

  class PostDisputer {
    const startEpoch: Epoch
    var buckets: Buckets
    var known: set<Miner>
    var lastEpoch: Epoch
    var lastStatusCheckEpoch: Epoch
    /** The disputes sent so far. */
    var sent: seq<(Deadline, nat)>

    ghost const firstEpoch: Epoch
    ghost var first: map<Miner, Epoch>
    ghost var regular: bool
    ghost var applied: seq<Epoch>

    /**
      Epochs are applied one after another. The run is regular as long as every fetched deadline was timely and no
      miner was listed twice at startup; then the buckets are sound, and every miner was found ahead of the first epoch.
     */
    ghost predicate Valid()
      reads this
    {
      && known == first.Keys
      && lastStatusCheckEpoch <= lastEpoch
      && lastEpoch == firstEpoch + |applied| && Consecutive(applied, firstEpoch)
      && (regular ==> Orderly(buckets, first, lastEpoch, startEpoch, firstEpoch))
    }

    ghost function Now(): Standing
      reads this
    {
      Standing(buckets, sent, known, lastEpoch, lastStatusCheckEpoch)
    }

    constructor (startEpoch: Epoch, head: Epoch)
      ensures Valid() && regular && Now() == Standing(map[], [], {}, head, head) && this.startEpoch == startEpoch
      ensures firstEpoch == head && applied == []
    {
      assert SoundWith(map[], map[], map[], head, startEpoch);
      this.startEpoch, firstEpoch := startEpoch, head;
      buckets, known, lastEpoch, lastStatusCheckEpoch, sent := map[], {}, head, head, [];
      first, regular, applied := map[], true, [];
    }

    /** A listed miner, at startup or in a status check. */
    method Discover(api: Api, m: Miner) returns (ok: bool)
      requires Valid()
      modifies this`buckets, this`known, this`first, this`regular
      ensures Valid() && (ok <==> api.proving(m).Some?)
      ensures known == old(known) + if ok then {m} else {}
      ensures regular <==> old(regular) && (ok ==> Timely(api, lastEpoch, m) && m !in old(known))
      ensures ok ==> first == old(first)[m := api.proving(m).value.0 + CONFIDENCE]
      ensures ok ==> buckets == Moved(api, old(buckets), m)
      ensures !ok ==> first == old(first) && buckets == old(buckets)
    {
      var proving := api.proving(m);
      if proving.None? { return false; }
      var key, dl := proving.value.0 + CONFIDENCE, Deadline(m, proving.value.1);
      regular := regular && key > lastEpoch && m !in known;
      if regular { DiscoverOrderly(buckets, first, lastEpoch, startEpoch, firstEpoch, key, dl); }
      buckets := Put(buckets, key, dl);
      KeysWith(first, m, key);
      first := first[m := key];
      known := known + {m};
      return true;
    }

    /** Startup: every miner in the state. */
    method Start(api: Api, miners: seq<Miner>) returns (ok: bool)
      requires Valid() && known == {}
      modifies this`buckets, this`known, this`first, this`regular
      ensures Valid() && (ok <==> AllProving(api, miners))
      ensures ok <==> Joined(api, miners, false, old(Now())).Some?
      ensures ok ==> known == Members(miners) && Joined(api, miners, false, old(Now())) == Some(Now())
      ensures ok && old(regular) && ListedOnce(miners) && TimelyNow(api, lastEpoch) ==> regular
    {
      for i := 0 to |miners|
        invariant Valid() && known == Members(miners[..i]) && AllProving(api, miners[..i])
        invariant Joined(api, miners[i..], false, Now()) == Joined(api, miners, false, old(Now()))
        invariant old(regular) && ListedOnce(miners) && TimelyNow(api, lastEpoch) ==> regular
      {
        MembersStep(api, miners, i);
        ok := Discover(api, miners[i]);
        if !ok { return; }
      }
      assert miners[..|miners|] == miners && miners[|miners|..] == [];
      return true;
    }

    /** The deadlines of a taken bucket: disputed, and put back where the miner's next deadline closes. */
    method WorkThrough(api: Api, dls: seq<Deadline>) returns (ok: bool, disputes: seq<(Deadline, nat)>)
      modifies this`buckets
      ensures ok <==> AllAnswered(api, dls)
      ensures ok ==> disputes == Disputes(api, dls) && buckets == Refiled(api, old(buckets), dls)
    {
      disputes := [];
      assert dls[0..] == dls;
      for i := 0 to |dls|
        invariant AllAnswered(api, dls[..i]) && disputes == Disputes(api, dls[..i])
        invariant SoFar(api, old(buckets), buckets, dls, i)
      {
        var more, proving := Ask(api, dls[i]);
        if proving.None? {
          assert !Answered(api, dls[i]);
          return false, [];
        }
        Worked(api, dls, i);
        SoFarNext(api, old(buckets), buckets, dls, i);
        disputes := disputes + more;
        buckets := Put(buckets, proving.value.0 + CONFIDENCE, Deadline(dls[i].miner, proving.value.1));
      }
      assert dls[..|dls|] == dls && dls[|dls|..] == [];
      return true, disputes;
    }

    /** One epoch: its bucket is taken out, and unless the start cutoff is ahead, worked through and put back. */
    method ApplyEpoch(api: Api) returns (ok: bool, disputes: seq<(Deadline, nat)>)
      modifies this`buckets
      ensures Applied(api, startEpoch, lastEpoch, old(buckets), buckets, ok, disputes)
    {
      var dls := if lastEpoch in buckets then buckets[lastEpoch] else [];
      buckets := buckets - {lastEpoch};
      if startEpoch >= lastEpoch { return true, []; }
      ok, disputes := WorkThrough(api, dls);
    }

    /** The epoch is applied, and the next one is due. */
    method ApplyNext(api: Api) returns (ok: bool)
      requires Valid()
      modifies this`buckets, this`regular, this`lastEpoch, this`applied, this`sent
      ensures ok <==> EpochDone(api, startEpoch, old(Now())).Some?
      ensures ok ==> EpochDone(api, startEpoch, old(Now())) == Some(Now())
      ensures ok <==> startEpoch >= old(lastEpoch) || AllAnswered(api, old(At(buckets, lastEpoch)))
      ensures ok ==> Valid() && lastEpoch == old(lastEpoch) + 1 && applied == old(applied) + [old(lastEpoch)]
      ensures ok ==> (regular <==> old(regular) && (startEpoch < old(lastEpoch) ==> AllTimely(api, old(lastEpoch), old(At(buckets, lastEpoch)))))
      ensures !ok ==> regular == old(regular)
    {
      ghost var before := buckets;
      var disputes: seq<(Deadline, nat)>;
      ok, disputes := ApplyEpoch(api);
      if !ok { return; }
      assert sent + [] == sent;
      sent := sent + disputes;
      regular := regular && (startEpoch < lastEpoch ==> AllTimely(api, lastEpoch, At(before, lastEpoch)));
      if regular { AppliedSound(api, startEpoch, lastEpoch, before, buckets, disputes, first); }
      applied := applied + [lastEpoch];
      lastEpoch := lastEpoch + 1;
    }

    /** An applied tipset: every epoch up to its height, null rounds included, once and in order. */
    method ApplyTipSet(apis: Epoch -> Api, height: Epoch) returns (ok: bool)
      requires Valid()
      modifies this`buckets, this`regular, this`lastEpoch, this`applied, this`sent
      ensures height <= startEpoch ==> ok
      ensures ok <==> TipSetDone(apis, startEpoch, height, old(Now())).Some?
      ensures ok ==> TipSetDone(apis, startEpoch, height, old(Now())) == Some(Now())
      ensures ok ==> Valid() && lastEpoch == (if height >= old(lastEpoch) then height + 1 else old(lastEpoch))
      ensures regular ==> old(regular)
      ensures ok && old(regular) && AlwaysTimely(apis) ==> regular
    {
      while lastEpoch <= height
        invariant Valid() && (regular ==> old(regular)) && (old(regular) && AlwaysTimely(apis) ==> regular)
        invariant old(lastEpoch) <= lastEpoch && (lastEpoch > old(lastEpoch) ==> lastEpoch <= height + 1)
        invariant TipSetDone(apis, startEpoch, height, Now()) == TipSetDone(apis, startEpoch, height, old(Now()))
        decreases height - lastEpoch
      {
        ok := ApplyNext(apis(lastEpoch));
        if !ok { return; }
      }
      return true;
    }

    /** A head-change notification; reverts change nothing. */
    method Notify(apis: Epoch -> Api, changes: seq<Change>) returns (ok: bool)
      requires Valid()
      modifies this`buckets, this`regular, this`lastEpoch, this`applied, this`sent
      ensures ok ==> Valid() && (forall i :: 0 <= i < |changes| ==> !changes[i].Unexpected?)
      ensures ok ==> lastEpoch == Reached(old(lastEpoch), changes)
      ensures ok <==> ChangesDone(apis, startEpoch, changes, old(Now())).Some?
      ensures ok ==> ChangesDone(apis, startEpoch, changes, old(Now())) == Some(Now())
      ensures regular ==> old(regular)
      ensures ok && old(regular) && AlwaysTimely(apis) ==> regular
    {
      for i := 0 to |changes|
        invariant Valid() && (regular ==> old(regular)) && (old(regular) && AlwaysTimely(apis) ==> regular)
        invariant (forall j :: 0 <= j < i ==> !changes[j].Unexpected?) && lastEpoch == Reached(old(lastEpoch), changes[..i])
        invariant ChangesDone(apis, startEpoch, changes[i..], Now()) == ChangesDone(apis, startEpoch, changes, old(Now()))
      {
        assert changes[..i + 1][..i] == changes[..i] && changes[i..][0] == changes[i] && changes[i..][1..] == changes[i + 1..];
        match changes[i] {
          case Apply(height) =>
            ok := ApplyTipSet(apis, height);
            if !ok { return; }
          case Revert(_) =>
          case Unexpected => return false;
        }
      }
      assert changes[..|changes|] == changes && changes[|changes|..] == [];
      return true;
    }

    /** The hourly check: new miners are found, and the purge of passed epochs never finds anything to delete. */
    method StatusCheck(api: Api, miners: seq<Miner>) returns (ok: bool)
      requires Valid()
      modifies this`buckets, this`known, this`first, this`regular, this`lastStatusCheckEpoch
      ensures ok ==> Valid() && known == old(known) + Members(miners) && lastStatusCheckEpoch == lastEpoch
      ensures ok ==> Extends(old(first), first)
      ensures ok <==> Happened(startEpoch, Tick(api, miners), old(Now())).Some?
      ensures ok ==> Happened(startEpoch, Tick(api, miners), old(Now())) == Some(Now())
      ensures regular ==> old(regular)
      ensures ok && old(regular) && TimelyNow(api, lastEpoch) ==> regular
    {
      for i := 0 to |miners|
        invariant Valid() && known == old(known) + Members(miners[..i]) && lastStatusCheckEpoch == old(lastStatusCheckEpoch)
        invariant (regular ==> old(regular)) && (old(regular) && TimelyNow(api, lastEpoch) ==> regular)
        invariant Extends(old(first), first) && lastEpoch == old(lastEpoch)
        invariant Joined(api, miners[i..], true, Now()) == Joined(api, miners, true, old(Now()))
      {
        MembersStep(api, miners, i);
        if miners[i] !in known {
          ok := Discover(api, miners[i]);
          if !ok { return; }
        }
      }
      assert miners[..|miners|] == miners && miners[|miners|..] == [];
      Purge();
      return true;
    }

    /** One event of the loop. */
    method Occur(e: Event) returns (ok: bool)
      requires Valid()
      modifies this`buckets, this`known, this`first, this`regular, this`lastStatusCheckEpoch, this`lastEpoch, this`applied, this`sent
      ensures ok <==> Happened(startEpoch, e, old(Now())).Some?
      ensures ok ==> Valid() && Happened(startEpoch, e, old(Now())) == Some(Now())
      ensures ok ==> old(known) <= known && lastEpoch == EpochThen(old(lastEpoch), e)
      ensures ok && old(regular) && EventTimely(old(lastEpoch), e) ==> regular
    {
      match e {
        case Heads(apis, changes) => ok := Notify(apis, changes);
        case Tick(now, listed) => ok := StatusCheck(now, listed);
      }
    }

    method Purge()
      requires Valid()
      modifies this`buckets, this`lastStatusCheckEpoch
      ensures Valid() && lastStatusCheckEpoch == lastEpoch
      ensures regular ==> buckets == old(buckets)
      ensures Now() == Purged(old(Now()))
    {
      if regular { NothingPassed(buckets, first, lastEpoch, startEpoch); }
      while lastStatusCheckEpoch < lastEpoch
        invariant old(lastStatusCheckEpoch) <= lastStatusCheckEpoch <= lastEpoch
        invariant buckets == map k | k in old(buckets) && !(old(lastStatusCheckEpoch) <= k < lastStatusCheckEpoch) :: old(buckets)[k]
      {
        if lastStatusCheckEpoch in buckets { buckets := buckets - {lastStatusCheckEpoch}; }
        lastStatusCheckEpoch := lastStatusCheckEpoch + 1;
      }
      assert regular ==> buckets == old(buckets);
    }
  }

  ghost predicate Regular(head: Epoch, api: Api, miners: seq<Miner>, events: seq<Event>) {
    ListedOnce(miners) && TimelyNow(api, head) && EventsTimely(head, events)
  }

  /**
    The command as written: it looks for its start epoch under a name that it does not declare, so the start epoch is
    always 0. From a head that is not below 0, as long as the node lists each miner once and gives deadlines that are
    still ahead, every known miner is in exactly one bucket after any events.
   */
  method Dispute(head: Epoch, api: Api, miners: seq<Miner>, events: seq<Event>) returns (d: PostDisputer, ok: bool)
    ensures d.startEpoch == 0 && (ok ==> d.Valid() && d.lastEpoch == EpochAfter(head, events) && forall m :: m in miners ==> m in d.known)
    ensures ok && Regular(head, api, miners, events) ==> d.regular
    ensures var begun := Joined(api, miners, false, Standing(map[], [], {}, head, head));
      && (ok <==> begun.Some? && AllHappened(0, events, begun.value).Some?)
      && (ok ==> AllHappened(0, events, begun.value) == Some(d.Now()))
    ensures ok && head >= 0 && d.regular ==> forall m :: m in d.known ==> InOneBucket(d.buckets, m)
  {
    d := new PostDisputer(0, head);
    ok := d.Start(api, miners);
    if !ok { return; }
    ghost var begun := d.Now();
    assert events[0..] == events;
    for i := 0 to |events|
      invariant fresh(d) && d.Valid() && d.startEpoch == 0 && d.firstEpoch == head && forall m :: m in miners ==> m in d.known
      invariant d.lastEpoch == EpochAfter(head, events[..i]) && (Regular(head, api, miners, events) ==> d.regular)
      invariant AllHappened(0, events[i..], d.Now()) == AllHappened(0, events, begun)
    {
      assert events[..i + 1][..i] == events[..i] && events[i..][0] == events[i] && events[i..][1..] == events[i + 1..];
      ok := d.Occur(events[i]);
      if !ok { return; }
    }
    assert events[..|events|] == events && events[|events|..] == [];
    if head >= 0 && d.regular { NobodyLost(d.buckets, d.first, d.lastEpoch, 0, head); }
    return d, true;
  }

  /** What a start epoch beyond the head would do: a miner whose deadline comes up before it is known but never followed. */
  method EarlyMinerIsLost() returns (d: PostDisputer)
    ensures d.Valid() && d.regular && d.known == {1} && !InOneBucket(d.buckets, 1)
  {
    var apis := e => Api(_ => Some((e, 0)), _ => None, (_, _) => false);
    d := new PostDisputer(100, 50);
    var ok := d.Discover(apis(50), 1);
    assert Timely(apis(50), 50, 1);
    ok := d.ApplyTipSet(apis, 60);
    FollowedIff(d.buckets, d.first, d.lastEpoch, d.startEpoch, 1);
  }
}
