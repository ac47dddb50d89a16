/** Candidate heads grouped into buckets of related tipsets: syncBucketSet and syncTargetBucket. */
module SyncBuckets {
  import opened Prelude
  import opened Chain

  /** Equal, parent or child. */
  predicate Related(a: TipSet, b: TipSet) {
    a == b || a.key == b.parents || a.parents == b.key
  }

  type Bucket = seq<TipSet>

  ghost predicate SameChain(b: Bucket, ts: TipSet) {
    exists i :: 0 <= i < |b| && Related(ts, b[i])
  }

  /** Every tipset but the first is related to one that was there before it. */
  ghost predicate Connected(b: Bucket) {
    forall i :: 0 < i < |b| ==> SameChain(b[..i], b[i])
  }

  ghost predicate Distinct(b: Bucket) {
    forall i, j :: 0 <= i < j < |b| ==> b[i] != b[j]
  }

  ghost predicate ValidBucket(b: Bucket) {
    |b| > 0 && Distinct(b) && Connected(b)
  }

  /** A walk through related tipsets of a bucket. */
  ghost predicate RelatedPath(b: Bucket, path: seq<nat>) {
    && |path| > 0
    && (forall i :: 0 <= i < |path| ==> path[i] < |b|)
    && (forall i :: 0 <= i < |path| - 1 ==> Related(b[path[i]], b[path[i + 1]]))
  }

  /** In a connected bucket every tipset is linked to the first one by related steps. */
  lemma {:induction false} ConnectedByPath(b: Bucket, i: nat) returns (path: seq<nat>)
    requires Connected(b) && i < |b|
    ensures RelatedPath(b, path) && path[0] == i && path[|path| - 1] == 0
    decreases i
  {
    if i == 0 {
      path := [0];
    } else {
      assert SameChain(b[..i], b[i]);
      var j :| 0 <= j < i && Related(b[i], b[..i][j]);
      var rest := ConnectedByPath(b, j);
      path := [i] + rest;
      forall k | 0 <= k < |path| - 1 ensures Related(b[path[k]], b[path[k + 1]]) {
        if k > 0 { assert Related(b[rest[k - 1]], b[rest[k]]); }
      }
    }
  }

  ghost function Added(b: Bucket, ts: TipSet): Bucket {
    if ts in b then b else b + [ts]
  }

  lemma AddedIsValid(b: Bucket, ts: TipSet)
    requires ValidBucket(b) && SameChain(b, ts)
    ensures ValidBucket(Added(b, ts)) && Added(b, ts)[0] == b[0]
  {
    var c := Added(b, ts);
    forall i | 0 < i < |c| ensures SameChain(c[..i], c[i]) {
      if i < |b| {
        assert SameChain(b[..i], b[i]);
        assert c[..i] == b[..i];
      } else {
        assert c[..i] == b;
      }
    }
  }

  /** The first related bucket takes the tipset; without one it starts a bucket of its own. */
  ghost function Inserted(bs: seq<Bucket>, ts: TipSet): seq<Bucket> {
    if bs == [] then [[ts]]
    else if SameChain(bs[0], ts) then [Added(bs[0], ts)] + bs[1..]
    else [bs[0]] + Inserted(bs[1..], ts)
  }

  ghost predicate Represents(bs: seq<Bucket>, t: TipSet) {
    exists i :: 0 <= i < |bs| && t in bs[i]
  }

  /** Buckets are sound one by one and start with different tipsets, so no two of them are the same bucket. */
  ghost predicate ValidBuckets(bs: seq<Bucket>) {
    && (forall i :: 0 <= i < |bs| ==> ValidBucket(bs[i]))
    && (forall i, j :: 0 <= i < j < |bs| ==> bs[i][0] != bs[j][0])
  }

  lemma RepresentsCons(b: Bucket, bs: seq<Bucket>, t: TipSet)
    ensures Represents([b] + bs, t) <==> t in b || Represents(bs, t)
  {
    var all := [b] + bs;
    if t in b { assert t in all[0]; }
    if Represents(bs, t) {
      var i :| 0 <= i < |bs| && t in bs[i];
      assert t in all[i + 1];
    }
    if Represents(all, t) {
      var i :| 0 <= i < |all| && t in all[i];
      if i > 0 { assert t in bs[i - 1]; }
    }
  }

  /** An insertion adds exactly its tipset to what the set represents. */
  lemma {:induction false} InsertedRepresents(bs: seq<Bucket>, ts: TipSet, t: TipSet)
    ensures Represents(Inserted(bs, ts), t) <==> Represents(bs, t) || t == ts
    decreases |bs|
  {
    if bs == [] {
      RepresentsCons([ts], [], t);
      assert [[ts]] + [] == [[ts]];
    } else {
      assert bs == [bs[0]] + bs[1..];
      RepresentsCons(bs[0], bs[1..], t);
      if SameChain(bs[0], ts) {
        RepresentsCons(Added(bs[0], ts), bs[1..], t);
      } else {
        RepresentsCons(bs[0], Inserted(bs[1..], ts), t);
        InsertedRepresents(bs[1..], ts, t);
      }
    }
  }

  lemma {:induction false} InsertedIsValid(bs: seq<Bucket>, ts: TipSet)
    requires ValidBuckets(bs)
    ensures ValidBuckets(Inserted(bs, ts))
    ensures |bs| <= |Inserted(bs, ts)| <= |bs| + 1
    ensures forall i :: 0 <= i < |bs| ==> Inserted(bs, ts)[i][0] == bs[i][0]
    ensures |Inserted(bs, ts)| == |bs| + 1 ==> Inserted(bs, ts)[|bs|] == [ts] && forall i :: 0 <= i < |bs| ==> !SameChain(bs[i], ts)
    decreases |bs|
  {
    if bs != [] {
      if SameChain(bs[0], ts) {
        AddedIsValid(bs[0], ts);
      } else {
        InsertedIsValid(bs[1..], ts);
        assert Related(bs[0][0], bs[0][0]);
      }
    }
  }

  lemma {:induction false} InsertedWhere(bs: seq<Bucket>, ts: TipSet, i: nat)
    requires i <= |bs| && forall j :: 0 <= j < i ==> !SameChain(bs[j], ts)
    ensures i == |bs| ==> Inserted(bs, ts) == bs + [[ts]]
    ensures i < |bs| && SameChain(bs[i], ts) ==> Inserted(bs, ts) == bs[..i] + [Added(bs[i], ts)] + bs[i + 1..]
    decreases i
  {
    if i > 0 {
      assert bs == [bs[0]] + bs[1..];
      InsertedWhere(bs[1..], ts, i - 1);
    }
  }

  ghost function Without(bs: seq<Bucket>, b: Bucket): seq<Bucket> {
    if bs == [] then []
    else Without(bs[..|bs| - 1], b) + if bs[|bs| - 1] == b then [] else [bs[|bs| - 1]]
  }

  lemma {:induction false} WithoutAbsent(bs: seq<Bucket>, b: Bucket)
    requires b !in bs
    ensures Without(bs, b) == bs
    decreases |bs|
  {
    if bs != [] { WithoutAbsent(bs[..|bs| - 1], b); }
  }

  /** Since buckets never coincide, removing one by its contents removes the one at its position. */
  lemma {:induction false} WithoutAt(bs: seq<Bucket>, i: nat)
    requires ValidBuckets(bs) && i < |bs|
    ensures Without(bs, bs[i]) == bs[..i] + bs[i + 1..]
    ensures ValidBuckets(Without(bs, bs[i]))
  {
    forall j | 0 <= j < |bs| && j != i ensures bs[j] != bs[i] {
      if j < i { assert bs[j][0] != bs[i][0]; } else { assert bs[i][0] != bs[j][0]; }
    }
    WithoutOnly(bs, i);
    RemovalIsValid(bs, i);
  }

  lemma {:induction false} WithoutOnly(bs: seq<Bucket>, i: nat)
    requires i < |bs| && forall j :: 0 <= j < |bs| && j != i ==> bs[j] != bs[i]
    ensures Without(bs, bs[i]) == bs[..i] + bs[i + 1..]
    decreases |bs|
  {
    var rest, last := bs[..|bs| - 1], bs[|bs| - 1];
    if i == |bs| - 1 {
      WithoutAbsent(rest, last);
      assert bs[i + 1..] == [];
    } else {
      WithoutOnly(rest, i);
      assert Without(bs, bs[i]) == Without(rest, bs[i]) + [last];
      assert rest[..i] == bs[..i] && rest[i + 1..] + [last] == bs[i + 1..];
    }
  }

  lemma RemovalIsValid(bs: seq<Bucket>, i: nat)
    requires ValidBuckets(bs) && i < |bs|
    ensures ValidBuckets(bs[..i] + bs[i + 1..])
  {
    var r := bs[..i] + bs[i + 1..];
    forall a, c | 0 <= a < c < |r| ensures r[a][0] != r[c][0] {
      var a', c' := if a < i then a else a + 1, if c < i then c else c + 1;
      assert bs[a'][0] != bs[c'][0];
    }
  }

  ghost function Keep(bs: seq<Bucket>, ts: TipSet): seq<Bucket> {
    if bs == [] then []
    else (if SameChain(bs[0], ts) then [] else [bs[0]]) + Keep(bs[1..], ts)
  }

  ghost function Gather(bs: seq<Bucket>, ts: TipSet): seq<TipSet> {
    if bs == [] then []
    else (if SameChain(bs[0], ts) then bs[0] else []) + Gather(bs[1..], ts)
  }

  ghost predicate AnyRelated(bs: seq<Bucket>, ts: TipSet) {
    exists i :: 0 <= i < |bs| && SameChain(bs[i], ts)
  }

  /** Being related to some bucket is being related to some tipset in the set. */
  lemma RelatedIffRepresented(bs: seq<Bucket>, ts: TipSet)
    ensures AnyRelated(bs, ts) <==> exists t :: Represents(bs, t) && Related(ts, t)
  {
    if AnyRelated(bs, ts) {
      var i :| 0 <= i < |bs| && SameChain(bs[i], ts);
      var j :| 0 <= j < |bs[i]| && Related(ts, bs[i][j]);
      assert bs[i][j] in bs[i] && Represents(bs, bs[i][j]);
    }
    if t :| Represents(bs, t) && Related(ts, t) {
      var i :| 0 <= i < |bs| && t in bs[i];
      assert SameChain(bs[i], ts);
    }
  }

  lemma InsertedKeepsRelated(bs: seq<Bucket>, ts: TipSet, x: TipSet)
    requires AnyRelated(bs, x)
    ensures AnyRelated(Inserted(bs, ts), x)
  {
    RelatedIffRepresented(bs, x);
    var t :| Represents(bs, t) && Related(x, t);
    InsertedRepresents(bs, ts, t);
    RelatedIffRepresented(Inserted(bs, ts), x);
  }

  /** What stays after the related buckets are popped, and what was popped, are together what was there. */
  lemma {:induction false} PopSplits(bs: seq<Bucket>, ts: TipSet, t: TipSet)
    ensures Represents(bs, t) <==> Represents(Keep(bs, ts), t) || t in Gather(bs, ts)
    ensures Gather(bs, ts) != [] ==> AnyRelated(bs, ts)
    decreases |bs|
  {
    if bs != [] {
      assert bs == [bs[0]] + bs[1..];
      PopSplits(bs[1..], ts, t);
      RepresentsCons(bs[0], bs[1..], t);
      RepresentsCons(bs[0], Keep(bs[1..], ts), t);
      if SameChain(bs[0], ts) {
        assert Keep(bs, ts) == Keep(bs[1..], ts);
      }
      if AnyRelated(bs[1..], ts) {
        var i :| 0 <= i < |bs[1..]| && SameChain(bs[1..][i], ts);
        assert SameChain(bs[i + 1], ts);
      }
    }
  }

  ghost predicate SubBuckets(kept: seq<Bucket>, bs: seq<Bucket>) {
    forall i :: 0 <= i < |kept| ==> kept[i] in bs
  }

  lemma {:induction false} KeepIsValid(bs: seq<Bucket>, ts: TipSet)
    requires ValidBuckets(bs)
    ensures ValidBuckets(Keep(bs, ts)) && SubBuckets(Keep(bs, ts), bs) && !AnyRelated(Keep(bs, ts), ts)
    ensures |Keep(bs, ts)| <= |bs|
    decreases |bs|
  {
    if bs != [] {
      KeepIsValid(bs[1..], ts);
      var rest := Keep(bs[1..], ts);
      forall i | 0 <= i < |rest| ensures rest[i][0] != bs[0][0] {
        var j :| 0 <= j < |bs[1..]| && bs[1..][j] == rest[i];
        assert bs[j + 1] == rest[i];
      }
    }
  }

  ghost predicate Heavy(b: seq<TipSet>, t: TipSet) {
    t in b && forall u :: u in b ==> u.weight <= t.weight
  }

  /** The heaviest tipset of a list, and the first of them if there are several. */
  ghost predicate FirstHeavy(b: seq<TipSet>, t: TipSet) {
    Heavy(b, t) && exists i :: 0 <= i < |b| && b[i] == t && LighterBefore(b, i, t)
  }

  ghost predicate LighterBefore(b: seq<TipSet>, i: nat, t: TipSet)
    requires i <= |b|
  {
    forall j :: 0 <= j < i ==> b[j].weight < t.weight
  }

  method HeaviestTipSet(b: Bucket) returns (best: TipSet)
    requires |b| > 0
    ensures FirstHeavy(b, best)
  {
    best := b[0];
    ghost var at := 0;
    for i := 1 to |b|
      invariant 0 <= at < i && b[at] == best && LighterBefore(b, at, best)
      invariant forall j :: 0 <= j < i ==> b[j].weight <= best.weight
    {
      if b[i].weight > best.weight { best, at := b[i], i; }
    }
  }

  ghost predicate FirstOf(bs: seq<Bucket>, j: nat, t: TipSet)
    requires j < |bs|
  {
    FirstHeavy(bs[j], t) && forall i, u :: 0 <= i < j && u in bs[i] ==> u.weight < t.weight
  }

  /** Everything in some buckets is lighter than the heaviest of another one. */
  ghost predicate AllLighter(bs: seq<Bucket>, best: Bucket) {
    exists t :: Heavy(best, t) && forall i, u :: 0 <= i < |bs| && u in bs[i] ==> u.weight < t.weight
  }

  /** The bucket at a position is gone, and it is the first one with a heaviest tipset. */
  ghost predicate PoppedAt(before: seq<Bucket>, at: nat, best: Bucket, after: seq<Bucket>) {
    at < |before| && best == before[at] && after == before[..at] + before[at + 1..] && AllLighter(before[..at], best)
  }

  method SameChainAs(b: Bucket, ts: TipSet) returns (same: bool)
    ensures same <==> SameChain(b, ts)
  {
    for i := 0 to |b|
      invariant forall j :: 0 <= j < i ==> !Related(ts, b[j])
    {
      if ts == b[i] || ts.key == b[i].parents || ts.parents == b[i].key { return true; }
    }
    return false;
  }

  method Add(b: Bucket, ts: TipSet) returns (c: Bucket)
    ensures c == Added(b, ts)
  {
    for i := 0 to |b|
      invariant forall j :: 0 <= j < i ==> b[j] != ts
    {
      if b[i] == ts { return b; }
    }
    return b + [ts];
  }

  class SyncBucketSet {
    var buckets: seq<Bucket>

    ghost predicate Valid()
      reads this
    {
      ValidBuckets(buckets)
    }

    constructor ()
      ensures Valid() && buckets == []
    {
      buckets := [];
    }

    method RelatedToAny(ts: TipSet) returns (related: bool)
      ensures related <==> AnyRelated(buckets, ts)
    {
      for i := 0 to |buckets|
        invariant forall j :: 0 <= j < i ==> !SameChain(buckets[j], ts)
      {
        var same := SameChainAs(buckets[i], ts);
        if same { return true; }
      }
      return false;
    }

    method Insert(ts: TipSet)
      requires Valid()
      modifies this
      ensures Valid() && buckets == Inserted(old(buckets), ts)
    {
      InsertedIsValid(buckets, ts);
      for i := 0 to |buckets|
        invariant buckets == old(buckets)
        invariant forall j :: 0 <= j < i ==> !SameChain(buckets[j], ts)
      {
        var same := SameChainAs(buckets[i], ts);
        if same {
          InsertedWhere(buckets, ts, i);
          var grown := Add(buckets[i], ts);
          buckets := buckets[..i] + [grown] + buckets[i + 1..];
          return;
        }
      }
      InsertedWhere(buckets, ts, |buckets|);
      buckets := buckets + [[ts]];
    }

    /** removeBucket; buckets are told apart by their contents, which never coincide. */
    method RemoveBucket(b: Bucket)
      modifies this
      ensures buckets == Without(old(buckets), b)
    {
      var kept: seq<Bucket> := [];
      for i := 0 to |buckets|
        invariant buckets == old(buckets) && kept == Without(buckets[..i], b)
      {
        assert buckets[..i + 1][..i] == buckets[..i];
        if buckets[i] != b { kept := kept + [buckets[i]]; }
      }
      assert buckets[..|buckets|] == buckets;
      buckets := kept;
    }

    /** Removes a bucket that holds a tipset of the greatest weight in the set. */
    method Pop() returns (best: Bucket)
      requires Valid() && buckets != []
      modifies this
      ensures Valid() && |buckets| == |old(buckets)| - 1
      ensures exists at :: PoppedAt(old(buckets), at, best, buckets)
      ensures exists t :: Heavy(best, t) && forall u :: Represents(old(buckets), u) ==> u.weight <= t.weight
      ensures ValidBucket(best)
    {
      best := buckets[0];
      var bestTs := HeaviestTipSet(best);
      ghost var at := 0;
      for i := 1 to |buckets|
        invariant buckets == old(buckets) && 0 <= at < i && best == buckets[at] && Heavy(best, bestTs)
        invariant forall j, u :: 0 <= j < i && u in buckets[j] ==> u.weight <= bestTs.weight
        invariant forall j, u :: 0 <= j < at && u in buckets[j] ==> u.weight < bestTs.weight
      {
        var hts := HeaviestTipSet(buckets[i]);
        if bestTs.weight < hts.weight {
          best, bestTs, at := buckets[i], hts, i;
        }
      }
      assert AllLighter(buckets[..at], best);
      WithoutAt(buckets, at);
      RemoveBucket(best);
      assert PoppedAt(old(buckets), at, best, buckets);
    }

    /** Ranges over the buckets as they were while the set shrinks; the related ones come back joined together. */
    method PopRelated(ts: TipSet) returns (out: Option<seq<TipSet>>)
      requires Valid()
      modifies this
      ensures Valid() && buckets == Keep(old(buckets), ts)
      ensures out.Some? <==> AnyRelated(old(buckets), ts)
      ensures out.Some? ==> out.value == Gather(old(buckets), ts) && |out.value| > 0
    {
      var snapshot := buckets;
      out := None;
      ghost var kept: seq<Bucket> := [];
      PoppingStarts(snapshot, ts);
      for i := 0 to |snapshot|
        invariant Popping(snapshot, i, ts, kept, buckets, out)
      {
        out, kept := PopOne(snapshot, i, ts, out, kept);
      }
      PoppedAll(snapshot, ts, kept, buckets, out);
    }

    /** One bucket is looked at; a related one is removed and joined to what was popped. */
    method PopOne(snapshot: seq<Bucket>, i: nat, ts: TipSet, out: Option<seq<TipSet>>, ghost kept: seq<Bucket>)
      returns (out': Option<seq<TipSet>>, ghost kept': seq<Bucket>)
      requires i < |snapshot| && Popping(snapshot, i, ts, kept, buckets, out)
      modifies this
      ensures Popping(snapshot, i + 1, ts, kept', buckets, out')
    {
      var same := SameChainAs(snapshot[i], ts);
      if same {
        PopsRelated(snapshot, i, ts, kept, buckets, out);
        RemoveBucket(snapshot[i]);
        return Some(if out.Some? then out.value + snapshot[i] else snapshot[i]), kept;
      }
      PopsNothing(snapshot, i, ts, kept, buckets, out);
      return out, kept + [snapshot[i]];
    }

    method Heaviest() returns (best: Option<TipSet>)
      requires Valid()
      ensures best.None? <==> buckets == []
      ensures best.Some? ==> Represents(buckets, best.value) && forall t :: Represents(buckets, t) ==> t.weight <= best.value.weight
      ensures best.Some? ==> exists j :: 0 <= j < |buckets| && FirstOf(buckets, j, best.value)
    {
      best := None;
      ghost var at := 0;
      for i := 0 to |buckets|
        invariant best.None? <==> i == 0
        invariant best.Some? ==> 0 <= at < i && FirstOf(buckets, at, best.value)
        invariant best.Some? ==> forall j, t :: 0 <= j < i && t in buckets[j] ==> t.weight <= best.value.weight
      {
        var hts := HeaviestTipSet(buckets[i]);
        if best.None? || hts.weight > best.value.weight { best, at := Some(hts), i; }
      }
    }
  }

  lemma {:induction false} KeepAppend(bs: seq<Bucket>, b: Bucket, ts: TipSet)
    ensures Keep(bs + [b], ts) == Keep(bs, ts) + if SameChain(b, ts) then [] else [b]
    ensures Gather(bs + [b], ts) == Gather(bs, ts) + if SameChain(b, ts) then b else []
    decreases |bs|
  {
    if bs != [] {
      assert (bs + [b])[1..] == bs[1..] + [b];
      KeepAppend(bs[1..], b, ts);
    }
  }

  ghost predicate Popped(seen: seq<Bucket>, ts: TipSet, kept: seq<Bucket>, out: Option<seq<TipSet>>) {
    && kept == Keep(seen, ts)
    && Gather(seen, ts) == (if out.Some? then out.value else [])
    && (out.Some? <==> AnyRelated(seen, ts))
    && (out.Some? ==> |out.value| > 0)
  }

  /** While related buckets are popped: the kept ones of those seen so far, then the ones not seen yet. */
  ghost predicate Popping(snapshot: seq<Bucket>, i: nat, ts: TipSet, kept: seq<Bucket>, buckets: seq<Bucket>, out: Option<seq<TipSet>>) {
    i <= |snapshot| && ValidBuckets(buckets) && buckets == kept + snapshot[i..] && Popped(snapshot[..i], ts, kept, out)
  }

  lemma PoppingStarts(snapshot: seq<Bucket>, ts: TipSet)
    requires ValidBuckets(snapshot)
    ensures Popping(snapshot, 0, ts, [], snapshot, None)
  {
    assert snapshot[..0] == [] && [] + snapshot[0..] == snapshot;
  }

  lemma PoppedAll(snapshot: seq<Bucket>, ts: TipSet, kept: seq<Bucket>, buckets: seq<Bucket>, out: Option<seq<TipSet>>)
    requires Popping(snapshot, |snapshot|, ts, kept, buckets, out)
    ensures ValidBuckets(buckets) && buckets == Keep(snapshot, ts)
    ensures out.Some? <==> AnyRelated(snapshot, ts)
    ensures out.Some? ==> out.value == Gather(snapshot, ts) && |out.value| > 0
  {
    assert snapshot[..|snapshot|] == snapshot && kept + snapshot[|snapshot|..] == kept;
  }

  lemma SplitAt(kept: seq<Bucket>, snapshot: seq<Bucket>, i: nat)
    requires i < |snapshot| && ValidBuckets(kept + snapshot[i..])
    ensures kept + snapshot[i..] == kept + [snapshot[i]] + snapshot[i + 1..] && |snapshot[i]| > 0
  {
    assert (kept + snapshot[i..])[|kept|] == snapshot[i];
  }

  lemma SeenOne(bs: seq<Bucket>, b: Bucket, ts: TipSet)
    ensures AnyRelated(bs + [b], ts) <==> AnyRelated(bs, ts) || SameChain(b, ts)
  {
    if AnyRelated(bs, ts) {
      var j :| 0 <= j < |bs| && SameChain(bs[j], ts);
      assert SameChain((bs + [b])[j], ts);
    }
    assert (bs + [b])[|bs|] == b;
  }

  lemma PopsRelated(snapshot: seq<Bucket>, i: nat, ts: TipSet, kept: seq<Bucket>, buckets: seq<Bucket>, out: Option<seq<TipSet>>)
    requires i < |snapshot| && Popping(snapshot, i, ts, kept, buckets, out) && SameChain(snapshot[i], ts)
    ensures Popping(snapshot, i + 1, ts, kept, Without(buckets, snapshot[i]), Some(if out.Some? then out.value + snapshot[i] else snapshot[i]))
  {
    var b := snapshot[i];
    assert snapshot[..i + 1] == snapshot[..i] + [b];
    SplitAt(kept, snapshot, i);
    RemoveMiddle(kept, b, snapshot[i + 1..]);
    KeepAppend(snapshot[..i], b, ts);
    SeenOne(snapshot[..i], b, ts);
  }

  lemma PopsNothing(snapshot: seq<Bucket>, i: nat, ts: TipSet, kept: seq<Bucket>, buckets: seq<Bucket>, out: Option<seq<TipSet>>)
    requires i < |snapshot| && Popping(snapshot, i, ts, kept, buckets, out) && !SameChain(snapshot[i], ts)
    ensures Popping(snapshot, i + 1, ts, kept + [snapshot[i]], buckets, out)
  {
    var b := snapshot[i];
    assert snapshot[..i + 1] == snapshot[..i] + [b];
    SplitAt(kept, snapshot, i);
    KeepAppend(snapshot[..i], b, ts);
    SeenOne(snapshot[..i], b, ts);
  }

  lemma RemoveMiddle(kept: seq<Bucket>, b: Bucket, rest: seq<Bucket>)
    requires ValidBuckets(kept + [b] + rest)
    ensures Without(kept + [b] + rest, b) == kept + rest && ValidBuckets(kept + rest)
  {
    var all := kept + [b] + rest;
    assert all[|kept|] == b;
    WithoutAt(all, |kept|);
    assert all[..|kept|] == kept && all[|kept| + 1..] == rest;
  }
}
