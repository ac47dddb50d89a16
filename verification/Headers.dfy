/** Collecting the headers between a candidate head and our own head: Syncer.collectHeaders. */
module Headers {
  import opened Prelude
  import opened Chain
  import opened Exchange
  import opened ForkChoice
  import opened BadBlocks

  const REQUEST_WINDOW := 500

  datatype HeaderError =
    | LinkedToBad | BeaconOrder | BeaconMismatch | ContainsBad | NoSegment | NotConnected | NoKnownParent
    | ForkFailed(fork: ForkError)

  /** How a collected list joins our chain: the first `walked` headers were walked, the rest is a fork fragment. */
  ghost predicate Joins(dag: Dag, known: TipSet, checkpoint: Option<TipSet>, headers: seq<TipSet>, walked: nat, drop: nat)
    requires dag.Valid() && dag.Has(known) && AllIn(dag, headers) && 1 <= walked <= |headers|
  {
    var base := headers[walked - 1];
    if walked == |headers| then
      base.IsChildOf(known) || (dag.HasParent(known) && base.IsChildOf(dag.Parent(known)))
    else
      Resolved(dag, base, known, checkpoint, headers[walked..], drop)
  }

  ghost predicate Collected(dag: Dag, incoming: TipSet, known: TipSet, checkpoint: Option<TipSet>,
                            headers: seq<TipSet>, walked: nat, drop: nat)
    requires dag.Valid() && dag.Has(known)
  {
    && 1 <= walked <= |headers|
    && headers[0] == incoming
    && AllIn(dag, headers)
    && Linked(headers)
    && (forall i :: 0 <= i < walked - 1 ==> headers[i].height > known.height)
    && Joins(dag, known, checkpoint, headers, walked, drop)
  }

  /** Nothing walked after the candidate itself is marked bad. */
  ghost predicate Clean(entries: map<Cid, Reason>, headers: seq<TipSet>, walked: nat)
    requires walked <= |headers|
  {
    forall i, c :: 1 <= i < walked && c in headers[i].key ==> c !in entries
  }

  ghost predicate Rounded(entries: seq<BeaconEntry>) {
    forall i, j :: 0 <= i < j < |entries| ==> entries[i].round <= entries[j].round
  }

  /** The first position whose round is below its predecessor's decides, as in sort.SliceIsSorted. */
  method BeaconSorted(entries: seq<BeaconEntry>) returns (sorted: bool)
    ensures sorted <==> Rounded(entries)
  {
    var i := |entries| - 1;
    while i > 0
      invariant i <= |entries| - 1 && (|entries| > 0 ==> i >= 0)
      invariant forall j, k :: 0 <= i <= j < k < |entries| ==> entries[j].round <= entries[k].round
    {
      if entries[i].round < entries[i - 1].round { return false; }
      i := i - 1;
    }
    return true;
  }

  method BeaconAgrees(blocks: seq<Header>) returns (agrees: bool)
    requires |blocks| > 0
    ensures agrees <==> forall b :: b in blocks ==> b.beacon == blocks[0].beacon
  {
    var target := blocks[0].beacon;
    for n := 1 to |blocks|
      invariant forall m :: 0 <= m < n ==> blocks[m].beacon == target
    {
      var other := blocks[n].beacon;
      if |target| != |other| {
        assert blocks[n] in blocks;
        return false;
      }
      for i := 0 to |other|
        invariant forall j :: 0 <= j < i ==> target[j] == other[j]
      {
        if target[i].round != other[i].round || target[i].data != other[i].data {
          assert blocks[n] in blocks && other[i] != target[i];
          return false;
        }
      }
    }
    return true;
  }

  /** The first bad block of a key, if any. */
  method FindBad(cache: BadBlockCache, key: Key) returns (bad: Option<(Cid, Reason)>)
    ensures bad.Some? ==> bad.value.0 in key && bad.value.0 in cache.entries && cache.entries[bad.value.0] == bad.value.1
    ensures bad.None? ==> forall c :: c in key ==> c !in cache.entries
  {
    for n := 0 to |key|
      invariant forall m :: 0 <= m < n ==> key[m] !in cache.entries
    {
      var reason := cache.Has(key[n]);
      if reason.Some? { return Some((key[n], reason.value)); }
    }
    return None;
  }

  lemma LinkedAppend(s: seq<TipSet>, t: TipSet)
    requires |s| > 0 && Linked(s) && s[|s| - 1].IsChildOf(t)
    ensures Linked(s + [t])
  {
    forall i | 0 <= i < |s| ensures (s + [t])[i].IsChildOf((s + [t])[i + 1]) {
      if i < |s| - 1 { assert s[i].IsChildOf(s[i + 1]); }
    }
  }

  lemma LinkedConcat(s: seq<TipSet>, t: seq<TipSet>)
    requires |s| > 0 && |t| > 0 && Linked(s) && Linked(t) && s[|s| - 1].IsChildOf(t[0])
    ensures Linked(s + t)
  {
    forall i | 0 <= i < |s + t| - 1 ensures (s + t)[i].IsChildOf((s + t)[i + 1]) {
      if i < |s| - 1 {
        assert s[i].IsChildOf(s[i + 1]);
      } else if i >= |s| {
        assert t[i - |s|].IsChildOf(t[i - |s| + 1]);
      }
    }
  }

  /** Accepted blocks all build on the parents of the last tipset collected. */
  lemma AcceptedDescend(dag: Dag, blockSet: seq<TipSet>, accepted: seq<Cid>, bad: Cid)
    requires dag.Valid() && |blockSet| > 0 && AllIn(dag, blockSet) && Linked(blockSet)
    requires bad in blockSet[|blockSet| - 1].parents
    requires forall c :: c in accepted ==> exists i :: 0 <= i < |blockSet| && c in blockSet[i].key
    ensures forall c :: c in accepted ==> Descends(dag, c, bad)
  {
    forall c | c in accepted ensures Descends(dag, c, bad) {
      var i :| 0 <= i < |blockSet| && c in blockSet[i].key;
      LinkedDescends(dag, blockSet, i, c, bad);
    }
  }

  /** What the backwards walk keeps: a clean, linked list from `incoming` down, all of it above our head but the end. */
  ghost predicate Walk(dag: Dag, incoming: TipSet, known: TipSet, entries: map<Cid, Reason>, blockSet: seq<TipSet>) {
    && |blockSet| > 0
    && blockSet[0] == incoming
    && AllIn(dag, blockSet)
    && Linked(blockSet)
    && Clean(entries, blockSet, |blockSet|)
    && forall i :: 0 <= i < |blockSet| - 1 ==> blockSet[i].height > known.height
  }

  ghost predicate Covered(blockSet: seq<TipSet>, accepted: seq<Cid>) {
    forall c :: c in accepted ==> exists i :: 0 <= i < |blockSet| && c in blockSet[i].key
  }

  lemma WalkStep(dag: Dag, incoming: TipSet, known: TipSet, entries: map<Cid, Reason>, blockSet: seq<TipSet>,
                 accepted: seq<Cid>, t: TipSet)
    requires dag.Valid() && Walk(dag, incoming, known, entries, blockSet) && Covered(blockSet, accepted)
    requires dag.Has(t) && blockSet[|blockSet| - 1].parents == t.key && blockSet[|blockSet| - 1].height > known.height
    requires forall c :: c in t.key ==> c !in entries
    ensures Walk(dag, incoming, known, entries, blockSet + [t]) && t.height < blockSet[|blockSet| - 1].height
    ensures Covered(blockSet + [t], accepted) && Covered(blockSet + [t], accepted + t.key)
  {
    var all := blockSet + [t];
    assert dag.Has(blockSet[|blockSet| - 1]);
    ParentIsLower(dag, blockSet[|blockSet| - 1]);
    LinkedAppend(blockSet, t);
    forall c | c in accepted ensures exists i :: 0 <= i < |all| && c in all[i].key {
      var i :| 0 <= i < |blockSet| && c in blockSet[i].key;
      assert all[i] == blockSet[i];
    }
    assert all[|blockSet|] == t;
  }

  /** The walk is over when it stands right above our head, or the next tipset would be below that. */
  ghost predicate Ended(dag: Dag, known: TipSet, s: seq<TipSet>)
    requires |s| > 0
  {
    var last := s[|s| - 1];
    last.height <= known.height + 1 || (dag.HasParent(last) && dag.Parent(last).height <= known.height)
  }

  /** A fetched segment, taken from its start while it stays above our head and clean. */
  method TakeSegment(ghost dag: Dag, cache: BadBlockCache, ghost incoming: TipSet, known: TipSet, walked: seq<TipSet>,
                     ghost accepted: seq<Cid>, blks: seq<TipSet>)
    returns (blockSet: seq<TipSet>, stop: bool, bad: Option<(Cid, Reason)>)
    requires dag.Valid() && Walk(dag, incoming, known, cache.entries, walked) && Covered(walked, accepted)
    requires walked[|walked| - 1].height > known.height + 1
    requires AllIn(dag, blks) && Linked(blks) && |blks| > 0 && walked[|walked| - 1].IsChildOf(blks[0])
    ensures Walk(dag, incoming, known, cache.entries, blockSet) && Covered(blockSet, accepted)
    ensures !stop && bad.None? ==> blockSet == walked + blks && blockSet[|blockSet| - 1].height > known.height
    ensures bad.Some? ==>
      && bad.value.0 in cache.entries && cache.entries[bad.value.0] == bad.value.1
      && bad.value.0 in blockSet[|blockSet| - 1].parents && blockSet[|blockSet| - 1].height > known.height + 1
    ensures bad.Some? ==> exists t :: t in blks && bad.value.0 in t.key
    ensures stop ==> bad.None? && Ended(dag, known, blockSet)
  {
    blockSet := walked;
    for k := 0 to |blks|
      invariant blockSet == walked + blks[..k]
      invariant Walk(dag, incoming, known, cache.entries, blockSet) && Covered(blockSet, accepted)
      invariant blockSet[|blockSet| - 1].height > known.height
      invariant k < |blks| ==> blockSet[|blockSet| - 1].IsChildOf(blks[k])
    {
      var b := blks[k];
      assert dag.Has(b);
      if b.height < known.height + 1 { return blockSet, true, None; }
      bad := FindBad(cache, b.key);
      if bad.Some? {
        assert b in blks;
        return blockSet, false, bad;
      }
      WalkStep(dag, incoming, known, cache.entries, blockSet, accepted, b);
      blockSet := blockSet + [b];
      if k + 1 < |blks| { assert blks[k].IsChildOf(blks[k + 1]); }
    }
    return blockSet, false, None;
  }

  /** Why a candidate may be refused at once. */
  ghost predicate Refused(entries: map<Cid, Reason>, incoming: TipSet, error: HeaderError) {
    match error
    case LinkedToBad => exists c :: c in incoming.parents && c in entries
    case BeaconOrder => |incoming.blocks| > 0 && !Rounded(incoming.blocks[0].beacon)
    case BeaconMismatch => |incoming.blocks| > 0 && exists b :: b in incoming.blocks && b.beacon != incoming.blocks[0].beacon
    case _ => false
  }

  /**
    The marks of a candidate that is refused at once: its blocks are linked to a bad parent, the first one alone is
    marked for the order of its beacon entries, and none when the blocks disagree.
   */
  ghost predicate CandidateMarks(incoming: TipSet, error: HeaderError, before: map<Cid, Reason>, after: map<Cid, Reason>) {
    match error
    case LinkedToBad =>
      exists c :: c in incoming.parents && c in before && Overwritten(before, after, incoming.key, before[c].Linked("linked to"))
    case BeaconOrder =>
      |incoming.key| > 0 && after == before[incoming.key[0] := Reason("wrong order of beacon entries", incoming.key, None)]
    case _ => after == before
  }

  /** The checks made before anything is fetched: bad parents, then the beacon entries of the candidate's blocks. */
  method CheckCandidate(ghost dag: Dag, cache: BadBlockCache, incoming: TipSet) returns (failed: Option<HeaderError>)
    requires dag.Valid() && dag.Has(incoming) && cache.Valid(dag)
    modifies cache
    ensures cache.Valid(dag) && old(cache.marks) <= cache.marks
    ensures failed.None? ==> cache.entries == old(cache.entries) && cache.marks == old(cache.marks)
    ensures failed == Some(LinkedToBad) <==> exists c :: c in incoming.parents && c in old(cache.entries)
    ensures failed.Some? ==> CandidateMarks(incoming, failed.value, old(cache.entries), cache.entries)
    ensures failed.None? <==>
      && (forall c :: c in incoming.parents ==> c !in old(cache.entries))
      && Rounded(incoming.blocks[0].beacon)
      && (forall b :: b in incoming.blocks ==> b.beacon == incoming.blocks[0].beacon)
    ensures failed.Some? ==> Refused(old(cache.entries), incoming, failed.value)
  {
    assert dag.ValidTipSet(incoming.key);
    var bad := FindBad(cache, incoming.parents);
    if bad.Some? {
      forall b | b in incoming.key ensures Descends(dag, b, bad.value.0) {
        LinkedDescends(dag, [incoming], 0, b, bad.value.0);
      }
      cache.AddLinked(dag, incoming.key, bad.value.0, bad.value.1, "linked to");
      return Some(LinkedToBad);
    }
    var sorted := BeaconSorted(incoming.blocks[0].beacon);
    if !sorted {
      cache.AddFirstCause(dag, incoming.key[0], incoming.key, "wrong order of beacon entries");
      return Some(BeaconOrder);
    }
    var agrees := BeaconAgrees(incoming.blocks);
    return if agrees then None else Some(BeaconMismatch);
  }

  /** How much is asked for when the walk stands at a tipset above our head. */
  function Window(at: TipSet, known: TipSet): nat
    requires at.height > known.height + 1
  {
    var gap := at.height - (known.height + 1);
    if gap < REQUEST_WINDOW then gap else REQUEST_WINDOW
  }

  /** Down to the height above our head, and at most 500 at a time. */
  lemma WindowIs(at: TipSet, known: TipSet)
    requires at.height > known.height + 1
    ensures var n := Window(at, known);
      1 <= n <= 500 && known.height + 1 <= at.height - n && (n == 500 || known.height + 1 == at.height - n)
  {
  }

  /** Why a walk gives up where it stands: a bad block right below, or a segment that nobody supplies. */
  ghost predicate StuckAt(view: View, entries: map<Cid, Reason>, known: TipSet, at: TipSet, error: HeaderError) {
    && at.height > known.height + 1
    && match error
       case ContainsBad => exists c :: c in at.parents && c in entries
       case NoSegment => view.load(at.parents).None? && view.blocks(at.parents, Window(at, known)).None?
       case _ => false
  }

  /** A clean walk from the candidate down to a tipset above our head at which it is stuck. */
  ghost predicate WalkBlocked(dag: Dag, view: View, entries: map<Cid, Reason>, incoming: TipSet, known: TipSet, error: HeaderError) {
    exists s :: Walk(dag, incoming, known, entries, s) && StuckAt(view, entries, known, s[|s| - 1], error)
  }

  /** What is put below a tipset of the walk: its stored parent, or else the whole segment that a peer supplies. */
  ghost predicate Extends(view: View, known: TipSet, at: TipSet, more: seq<TipSet>) {
    && at.height > known.height + 1
    && if view.load(at.parents).Some? then more == [view.load(at.parents).value]
       else view.blocks(at.parents, Window(at, known)) == Some(more)
  }

  /** The blocks accepted on a walk: the parents of every tipset at which it was extended, and no others. */
  ghost predicate Accepted(view: View, known: TipSet, s: seq<TipSet>, accepted: seq<Cid>)
    decreases |s|
  {
    || (|s| == 1 && accepted == [])
    || exists k: nat, before: seq<Cid> :: AcceptedAt(view, known, s, accepted, k, before) && Accepted(view, known, s[..k], before)
  }

  ghost predicate AcceptedAt(view: View, known: TipSet, s: seq<TipSet>, accepted: seq<Cid>, k: nat, before: seq<Cid>) {
    1 <= k < |s| && Extends(view, known, s[k - 1], s[k..]) && accepted == before + s[k - 1].parents
  }

  lemma AcceptsMore(view: View, known: TipSet, s: seq<TipSet>, accepted: seq<Cid>, more: seq<TipSet>)
    requires |s| > 0 && |more| > 0 && Accepted(view, known, s, accepted) && Extends(view, known, s[|s| - 1], more)
    ensures Accepted(view, known, s + more, accepted + s[|s| - 1].parents)
  {
    var all := s + more;
    assert all[..|s|] == s && all[|s|..] == more;
    assert AcceptedAt(view, known, all, accepted + s[|s| - 1].parents, |s|, accepted);
  }

  /** A bad block that the next extension of the walk would bring in. */
  ghost predicate BadBelow(view: View, entries: map<Cid, Reason>, known: TipSet, at: TipSet, bad: Cid) {
    && bad in entries && at.height > known.height + 1
    && (bad in at.parents
        || (view.load(at.parents).None? && view.blocks(at.parents, Window(at, known)).Some?
            && exists t :: t in view.blocks(at.parents, Window(at, known)).value && bad in t.key))
  }

  /** A walk that met a bad block: exactly the blocks accepted by then are linked to it. */
  ghost predicate Contained(view: View, incoming: TipSet, known: TipSet, before: map<Cid, Reason>, after: map<Cid, Reason>) {
    exists s: seq<TipSet>, accepted: seq<Cid>, bad: Cid :: ContainedAt(view, incoming, known, before, after, s, accepted, bad)
  }

  ghost predicate ContainedAt(view: View, incoming: TipSet, known: TipSet, before: map<Cid, Reason>, after: map<Cid, Reason>,
                              s: seq<TipSet>, accepted: seq<Cid>, bad: Cid)
  {
    && |s| > 0 && s[0] == incoming && Accepted(view, known, s, accepted)
    && BadBelow(view, before, known, s[|s| - 1], bad)
    && Overwritten(before, after, accepted, before[bad].Linked("change contained"))
  }

  /** The blocks accepted so far build on a bad one: they are linked to it. */
  method MarkContained(ghost dag: Dag, cache: BadBlockCache, ghost blockSet: seq<TipSet>, accepted: seq<Cid>, bad: (Cid, Reason))
    requires dag.Valid() && cache.Valid(dag) && |blockSet| > 0 && AllIn(dag, blockSet) && Linked(blockSet) && Covered(blockSet, accepted)
    requires bad.0 in blockSet[|blockSet| - 1].parents && bad.0 in cache.entries && cache.entries[bad.0] == bad.1
    modifies cache
    ensures cache.Valid(dag) && old(cache.marks) <= cache.marks
    ensures Overwritten(old(cache.entries), cache.entries, accepted, bad.1.Linked("change contained"))
  {
    AcceptedDescend(dag, blockSet, accepted, bad.0);
    cache.AddLinked(dag, accepted, bad.0, bad.1, "change contained");
  }

  /** A segment below the walk, fetched from the network and taken as far as it is needed; `stop` when that is not all of it. */
  method FetchSegment(ghost dag: Dag, view: View, cache: BadBlockCache, ghost incoming: TipSet, known: TipSet, walked: seq<TipSet>, accepted: seq<Cid>)
    returns (r: Result<(seq<TipSet>, bool), HeaderError>)
    requires dag.Valid() && dag.Has(known) && view.Conforms(dag) && cache.Valid(dag)
    requires Walk(dag, incoming, known, cache.entries, walked) && Covered(walked, accepted)
    requires walked[|walked| - 1].height > known.height + 1 && view.load(walked[|walked| - 1].parents).None?
    requires Accepted(view, known, walked, accepted)
    modifies cache
    ensures cache.Valid(dag) && old(cache.marks) <= cache.marks
    ensures r.Ok? || r == Err(NoSegment) ==> cache.entries == old(cache.entries) && cache.marks == old(cache.marks)
    ensures r.Ok? ==> Walk(dag, incoming, known, cache.entries, r.value.0)
    ensures r.Ok? && r.value.1 ==> Ended(dag, known, r.value.0)
    ensures r.Ok? && !r.value.1 ==>
      Covered(r.value.0, accepted + walked[|walked| - 1].parents) && Accepted(view, known, r.value.0, accepted + walked[|walked| - 1].parents)
    ensures r == Err(ContainsBad) ==> Contained(view, incoming, known, old(cache.entries), cache.entries)
    ensures r.Ok? && !r.value.1 ==> known.height < r.value.0[|r.value.0| - 1].height < walked[|walked| - 1].height
    ensures r.Err? ==> WalkBlocked(dag, view, old(cache.entries), incoming, known, r.error)
  {
    var last := walked[|walked| - 1];
    var fetched := GetBlocks(view, last.parents, Window(last, known));
    if fetched.None? {
      assert StuckAt(view, cache.entries, known, last, NoSegment);
      return Err(NoSegment);
    }
    var blks := fetched.value;
    assert dag.Has(blks[0]) && dag.Has(last);
    ParentIsLower(dag, last);
    if !last.IsChildOf(blks[0]) { return Err(NotConnected); }

    var blockSet, stop, bad := TakeSegment(dag, cache, incoming, known, walked, accepted, blks);
    if bad.Some? {
      assert StuckAt(view, cache.entries, known, blockSet[|blockSet| - 1], ContainsBad);
      ghost var before := cache.entries;
      MarkContained(dag, cache, blockSet, accepted, bad.value);
      assert ContainedAt(view, incoming, known, before, cache.entries, walked, accepted, bad.value.0);
      return Err(ContainsBad);
    }
    if !stop {
      AcceptsMore(view, known, walked, accepted, blks);
      SegmentAccepted(walked, blks, accepted);
      HeightsFall(blockSet, |walked| - 1, |blockSet| - 1);
    }
    return Ok((blockSet, stop));
  }

  /** The backwards walk, over local tipsets where there are any and fetched segments where there are not. */
  method WalkBack(ghost dag: Dag, view: View, cache: BadBlockCache, incoming: TipSet, known: TipSet)
    returns (r: Result<seq<TipSet>, HeaderError>)
    requires dag.Valid() && dag.Has(incoming) && dag.Has(known) && view.Conforms(dag) && cache.Valid(dag)
    modifies cache
    ensures cache.Valid(dag) && old(cache.marks) <= cache.marks
    ensures r.Ok? ==> cache.entries == old(cache.entries) && cache.marks == old(cache.marks)
    ensures r.Ok? ==> Walk(dag, incoming, known, cache.entries, r.value) && Ended(dag, known, r.value)
    ensures r.Err? ==> WalkBlocked(dag, view, old(cache.entries), incoming, known, r.error)
    ensures r == Err(NoSegment) ==> cache.entries == old(cache.entries) && cache.marks == old(cache.marks)
    ensures r == Err(ContainsBad) ==> Contained(view, incoming, known, old(cache.entries), cache.entries)
  {
    HeightsAreNatural(dag, [known]);
    assert [known][0].height >= 0;
    var blockSet := [incoming];
    var untilHeight := known.height + 1;
    var accepted: seq<Cid> := [];

    while blockSet[|blockSet| - 1].height > untilHeight
      invariant cache.Valid(dag) && cache.entries == old(cache.entries) && cache.marks == old(cache.marks)
      invariant Walk(dag, incoming, known, cache.entries, blockSet) && Covered(blockSet, accepted)
      invariant Accepted(view, known, blockSet, accepted)
      decreases blockSet[|blockSet| - 1].height
    {
      var at := blockSet[|blockSet| - 1].parents;
      var bad := FindBad(cache, at);
      if bad.Some? {
        assert StuckAt(view, cache.entries, known, blockSet[|blockSet| - 1], ContainsBad);
        MarkContained(dag, cache, blockSet, accepted, bad.value);
        assert ContainedAt(view, incoming, known, old(cache.entries), cache.entries, blockSet, accepted, bad.value.0);
        return Err(ContainsBad);
      }

      var ts := view.load(at);
      if ts.Some? {
        WalkStep(dag, incoming, known, cache.entries, blockSet, accepted, ts.value);
        AcceptsMore(view, known, blockSet, accepted, [ts.value]);
        blockSet := blockSet + [ts.value];
      } else {
        var fetched := FetchSegment(dag, view, cache, incoming, known, blockSet, accepted);
        if fetched.Err? { return Err(fetched.error); }
        blockSet := fetched.value.0;
        if fetched.value.1 { break; }
      }
      accepted := accepted + at;
    }
    return Ok(blockSet);
  }

  /**
    Why an ended walk fails to join: it ends neither at our head nor on it, and our own parent is missing, or it does
    not end on that either and the fork from there fails with that very error.
   */
  ghost predicate JoinBlocked(dag: Dag, view: View, entries: map<Cid, Reason>, incoming: TipSet, known: TipSet,
                              checkpoint: Option<TipSet>, error: HeaderError)
    requires dag.Valid() && dag.Has(known) && view.Conforms(dag)
  {
    exists s ::
      && Walk(dag, incoming, known, entries, s) && Ended(dag, known, s)
      && ApartAt(dag, view, known, checkpoint, s[|s| - 1], error)
  }

  ghost predicate ApartAt(dag: Dag, view: View, known: TipSet, checkpoint: Option<TipSet>, base: TipSet, error: HeaderError)
    requires dag.Valid() && dag.Has(known) && view.Conforms(dag)
  {
    var parent := view.load(known.parents);
    && base != known && !base.IsChildOf(known)
    && match error
       case NoKnownParent => parent.None?
       case ForkFailed(e) => parent.Some? && !base.IsChildOf(parent.value) && ForkFails(dag, view, base, known, checkpoint, e)
       case _ => false
  }

  /** Joining the walked headers to our chain: fast forward, same-height sibling, or fork. */
  method JoinChain(ghost dag: Dag, view: View, ghost incoming: TipSet, walkedBack: seq<TipSet>, known: TipSet,
                   checkpoint: Option<TipSet>, ignoreCheckpoint: bool, ghost entries: map<Cid, Reason>)
    returns (r: Result<seq<TipSet>, HeaderError>, ghost walked: nat, ghost drop: nat)
    requires dag.Valid() && dag.Has(known) && view.Conforms(dag) && incoming != known
    requires Walk(dag, incoming, known, entries, walkedBack) && Ended(dag, known, walkedBack)
    ensures r.Ok? ==> Collected(dag, incoming, known, if ignoreCheckpoint then None else checkpoint, r.value, walked, drop)
    ensures r.Ok? ==> Clean(entries, r.value, walked)
    ensures r.Err? ==> JoinBlocked(dag, view, entries, incoming, known, if ignoreCheckpoint then None else checkpoint, r.error)
    ensures ignoreCheckpoint ==> r != Err(ForkFailed(ForkCheckpoint))
  {
    drop := 1;
    ghost var guard := if ignoreCheckpoint then None else checkpoint;
    var blockSet := walkedBack;
    var base := blockSet[|blockSet| - 1];
    if base == known {
      TrimKnown(dag, incoming, known, entries, blockSet);
      blockSet := blockSet[..|blockSet| - 1];
      base := blockSet[|blockSet| - 1];
    }
    walked := |blockSet|;
    if base.IsChildOf(known) {
      WalkJoins(dag, incoming, known, entries, guard, blockSet, drop);
      return Ok(blockSet), walked, drop;
    }
    var knownParent := view.load(known.parents);
    if knownParent.None? {
      assert ApartAt(dag, view, known, guard, base, NoKnownParent);
      return Err(NoKnownParent), walked, drop;
    }
    if base.IsChildOf(knownParent.value) {
      WalkJoins(dag, incoming, known, entries, guard, blockSet, drop);
      return Ok(blockSet), walked, drop;
    }
    r, drop := JoinFork(dag, view, blockSet, known, checkpoint, ignoreCheckpoint);
    if r.Err? {
      assert ApartAt(dag, view, known, guard, base, r.error);
    } else {
      ForkCollected(dag, incoming, known, entries, guard, blockSet, r.value, drop);
    }
  }

  lemma ForkCollected(dag: Dag, incoming: TipSet, known: TipSet, entries: map<Cid, Reason>, checkpoint: Option<TipSet>,
                      s: seq<TipSet>, headers: seq<TipSet>, drop: nat)
    requires dag.Valid() && dag.Has(known) && Walk(dag, incoming, known, entries, s) && s <= headers
    requires AllIn(dag, headers) && Linked(headers) && Joins(dag, known, checkpoint, headers, |s|, drop)
    ensures Collected(dag, incoming, known, checkpoint, headers, |s|, drop) && Clean(entries, headers, |s|)
  {
  }

  /** Neither our head nor its parent continues the list: the fork from its end is resolved and appended. */
  method JoinFork(ghost dag: Dag, view: View, blockSet: seq<TipSet>, known: TipSet, checkpoint: Option<TipSet>, ignoreCheckpoint: bool)
    returns (r: Result<seq<TipSet>, HeaderError>, ghost drop: nat)
    requires dag.Valid() && dag.Has(known) && view.Conforms(dag) && |blockSet| > 0 && AllIn(dag, blockSet) && Linked(blockSet)
    ensures ignoreCheckpoint ==> r != Err(ForkFailed(ForkCheckpoint))
    ensures r.Ok? ==>
      && blockSet <= r.value && AllIn(dag, r.value) && Linked(r.value)
      && Joins(dag, known, if ignoreCheckpoint then None else checkpoint, r.value, |blockSet|, drop)
    ensures r.Err? ==>
      && r.error.ForkFailed?
      && ForkFails(dag, view, blockSet[|blockSet| - 1], known, if ignoreCheckpoint then None else checkpoint, r.error.fork)
  {
    assert dag.Has(blockSet[|blockSet| - 1]);
    var fork;
    fork, drop := SyncFork(dag, view, blockSet[|blockSet| - 1], known, checkpoint, ignoreCheckpoint);
    if fork.Err? { return Err(ForkFailed(fork.error)), drop; }
    ForkJoins(dag, blockSet, known, if ignoreCheckpoint then None else checkpoint, fork.value, drop);
    return Ok(blockSet + fork.value), drop;
  }

  /** A walk that ends at our head ends on it without its last tipset. */
  lemma TrimKnown(dag: Dag, incoming: TipSet, known: TipSet, entries: map<Cid, Reason>, s: seq<TipSet>)
    requires Walk(dag, incoming, known, entries, s) && s[|s| - 1] == known && incoming != known
    ensures |s| > 1 && Walk(dag, incoming, known, entries, s[..|s| - 1]) && s[|s| - 2].IsChildOf(known)
  {
    assert s[|s| - 2].IsChildOf(s[|s| - 1]);
  }

  lemma WalkJoins(dag: Dag, incoming: TipSet, known: TipSet, entries: map<Cid, Reason>, checkpoint: Option<TipSet>, s: seq<TipSet>, drop: nat)
    requires dag.Valid() && dag.Has(known) && Walk(dag, incoming, known, entries, s)
    requires s[|s| - 1].IsChildOf(known) || (dag.HasParent(known) && s[|s| - 1].IsChildOf(dag.Parent(known)))
    ensures Collected(dag, incoming, known, checkpoint, s, |s|, drop) && Clean(entries, s, |s|)
  {
  }

  ghost predicate Blocked(dag: Dag, view: View, entries: map<Cid, Reason>, incoming: TipSet, known: TipSet,
                          checkpoint: Option<TipSet>, error: HeaderError)
    requires dag.Valid() && dag.Has(incoming) && dag.Has(known) && view.Conforms(dag)
  {
    || Refused(entries, incoming, error)
    || WalkBlocked(dag, view, entries, incoming, known, error)
    || JoinBlocked(dag, view, entries, incoming, known, checkpoint, error)
  }

  /** What each failure marks; being unable to fetch or load something marks nothing. */
  ghost predicate MarksOf(view: View, incoming: TipSet, known: TipSet, error: HeaderError, before: map<Cid, Reason>, after: map<Cid, Reason>) {
    match error
    case ContainsBad => Contained(view, incoming, known, before, after)
    case ForkFailed(e) =>
      if e == ForkTooLong || e == ForkCheckpoint then Overwritten(before, after, incoming.key, Reason("fork past finality", incoming.key, None))
      else after == before
    case _ => CandidateMarks(incoming, error, before, after)
  }

  method MarkFork(ghost dag: Dag, cache: BadBlockCache, key: Key)
    requires dag.Valid() && cache.Valid(dag)
    modifies cache
    ensures cache.Valid(dag) && old(cache.marks) <= cache.marks
    ensures Overwritten(old(cache.entries), cache.entries, key, Reason("fork past finality", key, None))
  {
    for n := 0 to |key|
      invariant cache.Valid(dag) && old(cache.marks) <= cache.marks
      invariant Overwritten(old(cache.entries), cache.entries, key[..n], Reason("fork past finality", key, None))
    {
      OverwrittenStep(old(cache.entries), cache.entries, key, n, Reason("fork past finality", key, None));
      cache.AddFirstCause(dag, key[n], key, "fork past finality");
    }
    assert key[..|key|] == key;
  }

  /**
    A successful collection is a linked list from `incoming` down to where it joins our chain, and leaves the cache
    alone; a failed one has a reason and adds justified marks only.
   */
  method CollectHeaders(ghost dag: Dag, view: View, cache: BadBlockCache, incoming: TipSet, known: TipSet,
                        checkpoint: Option<TipSet>, ignoreCheckpoint: bool)
    returns (r: Result<seq<TipSet>, HeaderError>, ghost walked: nat, ghost drop: nat)
    requires dag.Valid() && dag.Has(incoming) && dag.Has(known) && view.Conforms(dag)
    requires cache.Valid(dag)
    requires incoming != known
    modifies cache
    ensures cache.Valid(dag) && old(cache.marks) <= cache.marks
    ensures r.Ok? ==> Collected(dag, incoming, known, if ignoreCheckpoint then None else checkpoint, r.value, walked, drop)
    ensures r.Ok? ==> cache.entries == old(cache.entries) && cache.marks == old(cache.marks)
    ensures r.Ok? ==> Clean(cache.entries, r.value, walked) && forall c :: c in incoming.parents ==> c !in cache.entries
    ensures r == Err(LinkedToBad) <==> exists c :: c in incoming.parents && c in old(cache.entries)
    ensures r.Err? ==> Blocked(dag, view, old(cache.entries), incoming, known, if ignoreCheckpoint then None else checkpoint, r.error)
    ensures ignoreCheckpoint ==> r != Err(ForkFailed(ForkCheckpoint))
    ensures r.Err? ==> MarksOf(view, incoming, known, r.error, old(cache.entries), cache.entries)
  {
    walked, drop := 1, 1;
    var failed := CheckCandidate(dag, cache, incoming);
    if failed.Some? { return Err(failed.value), walked, drop; }
    r := WalkBack(dag, view, cache, incoming, known);
    if r.Err? { return; }
    r, walked, drop := JoinChain(dag, view, incoming, r.value, known, checkpoint, ignoreCheckpoint, cache.entries);
    if r.Err? && r.error.ForkFailed? && (r.error.fork.ForkTooLong? || r.error.fork.ForkCheckpoint?) {
      MarkFork(dag, cache, incoming.key);
    }
  }

  lemma SegmentAccepted(before: seq<TipSet>, blks: seq<TipSet>, accepted: seq<Cid>)
    requires Covered(before, accepted) && |blks| > 0
    ensures Covered(before + blks, accepted + blks[0].key)
  {
    var all := before + blks;
    forall c | c in accepted + blks[0].key ensures exists i :: 0 <= i < |all| && c in all[i].key {
      if c in accepted {
        var i :| 0 <= i < |before| && c in before[i].key;
        assert all[i] == before[i];
      } else {
        assert all[|before|] == blks[0];
      }
    }
  }

  lemma ForkJoins(dag: Dag, blockSet: seq<TipSet>, known: TipSet, checkpoint: Option<TipSet>, fragment: seq<TipSet>, drop: nat)
    requires dag.Valid() && |blockSet| > 0 && AllIn(dag, blockSet) && Linked(blockSet) && dag.Has(known)
    requires Resolved(dag, blockSet[|blockSet| - 1], known, checkpoint, fragment, drop)
    ensures AllIn(dag, blockSet + fragment) && Linked(blockSet + fragment)
    ensures Joins(dag, known, checkpoint, blockSet + fragment, |blockSet|, drop)
  {
    var base := blockSet[|blockSet| - 1];
    var theirs := Lineage(dag, base);
    LineageShape(dag, base);
    assert AllIn(dag, fragment);
    assert Linked(fragment) by {
      forall i | 0 <= i < |fragment| - 1 ensures fragment[i].IsChildOf(fragment[i + 1]) {
        assert theirs[i + 1].IsChildOf(theirs[i + 2]);
      }
    }
    assert theirs[0].IsChildOf(theirs[1]);
    LinkedConcat(blockSet, fragment);
    assert (blockSet + fragment)[|blockSet|..] == fragment;
  }
}
