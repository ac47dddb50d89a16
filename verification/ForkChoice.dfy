/**
  Resolving a fork: the two-pointer walk of Syncer.syncFork over the fork's segment and our own chain.
 */
module ForkChoice {
  import opened Prelude
  import opened Chain
  import opened Exchange

  datatype ForkError = ForkCheckpoint | ForkTooLong | ForkedAtGenesis | NoBlocks | NoLocalTipSet

  /**
    The fork is resolved by dropping the first `drop` tipsets of our chain: the returned fragment leads from
    the parent of `incoming` to tipset number `drop` of our chain, and nothing above it is shared.
   */
  ghost predicate Resolved(dag: Dag, incoming: TipSet, known: TipSet, checkpoint: Option<TipSet>,
                           fragment: seq<TipSet>, drop: nat)
    requires dag.Valid() && dag.Has(incoming) && dag.Has(known)
  {
    var ours := Lineage(dag, known);
    var theirs := Lineage(dag, incoming);
    && 1 <= drop <= FORK_LENGTH_THRESHOLD
    && drop < |ours|
    && 1 <= |fragment| < |theirs|
    && fragment == theirs[1..|fragment| + 1]
    && theirs[|fragment|] == ours[drop]
    && ours[drop].height != 0
    && (forall i, j :: 1 <= i < |fragment| && 1 <= j < |ours| ==> theirs[i] != ours[j])
    && (checkpoint.Some? ==> checkpoint.value !in ours[..drop])
  }

  /** The fork point is the highest tipset that both chains share strictly below `incoming` and `known`. */
  lemma ForkPointIsHighestCommon(dag: Dag, incoming: TipSet, known: TipSet, checkpoint: Option<TipSet>,
                                 fragment: seq<TipSet>, drop: nat, x: TipSet)
    requires dag.Valid() && dag.Has(incoming) && dag.Has(known)
    requires Resolved(dag, incoming, known, checkpoint, fragment, drop)
    requires x in Lineage(dag, incoming)[1..] && x in Lineage(dag, known)[1..]
    ensures dag.Has(fragment[|fragment| - 1])
    ensures x in Lineage(dag, fragment[|fragment| - 1])
    ensures x.height <= fragment[|fragment| - 1].height
  {
    var ours, theirs := Lineage(dag, known), Lineage(dag, incoming);
    var n := |fragment|;
    assert fragment[n - 1] == theirs[n];
    LineageSuffix(dag, incoming, n);
    var i := PositionBelow(theirs, x);
    var j := PositionBelow(ours, x);
    assert theirs[n..][i - n] == x;
    LineageShape(dag, incoming);
    if n < i { HeightsFall(theirs, n, i); }
  }

  lemma PositionBelow(s: seq<TipSet>, x: TipSet) returns (i: nat)
    requires |s| > 0 && x in s[1..]
    ensures 1 <= i < |s| && s[i] == x
  {
    var k :| 0 <= k < |s[1..]| && s[1..][k] == x;
    i := k + 1;
  }

  /**
    The walk over our chain can stop at depth `drop`, where it meets position `at` of the fetched segment:
    everything down to there loads, lies above height 0, and drops no checkpoint.
   */
  ghost predicate Meets(view: View, ours: seq<TipSet>, checkpoint: Option<TipSet>, tips: seq<TipSet>,
                        drop: nat, at: nat)
  {
    && Droppable(view, ours, checkpoint, drop)
    && at < |tips|
    && tips[at] == ours[drop]
    && ours[drop].height != 0
  }

  ghost predicate Droppable(view: View, ours: seq<TipSet>, checkpoint: Option<TipSet>, drop: nat) {
    && 1 <= drop <= FORK_LENGTH_THRESHOLD
    && drop < |ours|
    && (forall j :: 1 <= j <= drop ==> view.load(ours[j].key).Some?)
    && (checkpoint.Some? ==> forall j :: 0 <= j < drop ==> ours[j] != checkpoint.value)
  }

  ghost predicate MeetsSomewhere(view: View, ours: seq<TipSet>, checkpoint: Option<TipSet>, tips: seq<TipSet>) {
    exists d: nat, a: nat :: Meets(view, ours, checkpoint, tips, d, a)
  }

  /** What the walk knows when it stands at tips[cur] and at depth `drop` of our chain: nothing it passed is shared. */
  ghost predicate Walking(view: View, ours: seq<TipSet>, checkpoint: Option<TipSet>, tips: seq<TipSet>,
                          cur: nat, drop: nat)
  {
    && Droppable(view, ours, checkpoint, drop)
    && cur <= |tips|
    && (forall i, j :: 0 <= i < cur && 1 <= j < |ours| ==> tips[i] != ours[j])
    && (forall i, j :: 0 <= i < |tips| && 1 <= j < drop ==> tips[i] != ours[j])
  }

  /** Passing tips[cur] while our chain is already lower loses no meeting point. */
  lemma AdvanceFork(view: View, ours: seq<TipSet>, checkpoint: Option<TipSet>, tips: seq<TipSet>, cur: nat, drop: nat)
    requires Linked(ours) && Walking(view, ours, checkpoint, tips, cur, drop) && cur < |tips|
    requires ours[drop].height < tips[cur].height
    ensures Walking(view, ours, checkpoint, tips, cur + 1, drop)
  {
    forall j | 1 <= j < |ours| ensures tips[cur] != ours[j] {
      if drop < j { HeightsFall(ours, drop, j); }
    }
  }

  /** Dropping our tipset while it is at least as high as tips[cur] loses no meeting point either. */
  lemma DropOurs(view: View, ours: seq<TipSet>, checkpoint: Option<TipSet>, tips: seq<TipSet>, cur: nat, drop: nat)
    requires Linked(tips) && Walking(view, ours, checkpoint, tips, cur, drop) && cur < |tips|
    requires ours[drop].height >= tips[cur].height && ours[drop] != tips[cur]
    ensures forall i :: 0 <= i < |tips| ==> tips[i] != ours[drop]
  {
    forall i | 0 <= i < |tips| ensures tips[i] != ours[drop] {
      if cur < i { HeightsFall(tips, cur, i); }
    }
  }

  /** A walk whose next drop is impossible has no meeting point ahead of it. */
  lemma CannotDropFurther(view: View, ours: seq<TipSet>, checkpoint: Option<TipSet>, tips: seq<TipSet>, cur: nat, drop: nat)
    requires Walking(view, ours, checkpoint, tips, cur, drop)
    requires forall i :: 0 <= i < |tips| ==> tips[i] != ours[drop]
    requires !Droppable(view, ours, checkpoint, drop + 1)
    ensures !MeetsSomewhere(view, ours, checkpoint, tips)
  {
    forall d: nat, a: nat | Meets(view, ours, checkpoint, tips, d, a) ensures false { }
  }

  lemma NothingBelowZero(view: View, ours: seq<TipSet>, checkpoint: Option<TipSet>, tips: seq<TipSet>, cur: nat, drop: nat)
    requires Linked(ours) && Walking(view, ours, checkpoint, tips, cur, drop)
    requires ours[drop].height == 0 && forall j :: 0 <= j < |ours| ==> ours[j].height >= 0
    ensures !MeetsSomewhere(view, ours, checkpoint, tips)
  {
    forall d: nat, a: nat | Meets(view, ours, checkpoint, tips, d, a) ensures false {
      assert tips[a] == ours[d];
      if drop < d { HeightsFall(ours, drop, d); }
    }
  }

  lemma HeightsAreNatural(dag: Dag, s: seq<TipSet>)
    requires dag.Valid() && AllIn(dag, s)
    ensures forall j :: 0 <= j < |s| ==> s[j].height >= 0
  {
    forall j | 0 <= j < |s| ensures s[j].height >= 0 {
      assert dag.Has(s[j]) && dag.ValidTipSet(s[j].key) && dag.ValidHeader(s[j].key[0]);
    }
  }

  lemma MeetingResolves(dag: Dag, view: View, incoming: TipSet, known: TipSet, checkpoint: Option<TipSet>,
                        tips: seq<TipSet>, cur: nat, drop: nat)
    requires dag.Valid() && dag.Has(incoming) && dag.Has(known)
    requires Segment(dag, incoming.parents, |tips|, tips)
    requires Walking(view, Lineage(dag, known), checkpoint, tips, cur, drop)
    requires Meets(view, Lineage(dag, known), checkpoint, tips, drop, cur)
    ensures Resolved(dag, incoming, known, checkpoint, tips[..cur + 1], drop)
  {
    ForkSegment(dag, incoming, tips);
    var theirs := Lineage(dag, incoming);
    assert tips[..cur + 1] == theirs[1..cur + 2];
    forall i | 1 <= i < |theirs| && i <= |tips| ensures theirs[i] == tips[i - 1] { }
  }

  // How a walk ends ----------------------------------------------------------------------------------------------

  /** What becomes of the walk at a depth of our chain. */
  datatype Fate = GoesOn | Met | Fails(error: ForkError)

  /** The reference: depth by depth along our own chain, without the position in the fetched segment. */
  ghost function FateAt(view: View, ours: seq<TipSet>, checkpoint: Option<TipSet>, tips: seq<TipSet>, d: nat): Fate
    requires d < |ours| && |tips| > 0
  {
    if d > 0 && ours[d].height == 0 then Fails(ForkedAtGenesis)
    else if d > 0 && ours[d] in tips then Met
    else if d > 0 && (ours[d].height < tips[|tips| - 1].height || d >= FORK_LENGTH_THRESHOLD) then Fails(ForkTooLong)
    else if checkpoint == Some(ours[d]) then Fails(ForkCheckpoint)
    else if view.load(ours[d].parents).None? then Fails(NoLocalTipSet)
    else GoesOn
  }

  ghost predicate Ends(view: View, ours: seq<TipSet>, checkpoint: Option<TipSet>, tips: seq<TipSet>, d: nat, fate: Fate)
    requires |tips| > 0
  {
    && d < |ours| && fate != GoesOn && FateAt(view, ours, checkpoint, tips, d) == fate
    && forall j: nat :: j < d ==> FateAt(view, ours, checkpoint, tips, j) == GoesOn
  }

  /** Which error a fork of `base` ends with. */
  ghost predicate ForkFails(dag: Dag, view: View, base: TipSet, known: TipSet, checkpoint: Option<TipSet>, error: ForkError)
    requires dag.Valid() && dag.Has(known) && view.Conforms(dag)
  {
    var fetched := view.blocks(base.parents, FORK_LENGTH_THRESHOLD);
    if checkpoint == Some(known) then error == ForkCheckpoint
    else if fetched.None? then error == NoBlocks
    else EndsWith(view, Lineage(dag, known), checkpoint, fetched.value, error)
  }

  ghost predicate EndsWith(view: View, ours: seq<TipSet>, checkpoint: Option<TipSet>, tips: seq<TipSet>, error: ForkError)
    requires |tips| > 0
  {
    exists d: nat :: Ends(view, ours, checkpoint, tips, d, Fails(error))
  }

  /** The reference ends at one depth, in one way. */
  lemma EndIsUnique(view: View, ours: seq<TipSet>, checkpoint: Option<TipSet>, tips: seq<TipSet>, d: nat, f: Fate, c: nat, g: Fate)
    requires |tips| > 0 && Ends(view, ours, checkpoint, tips, d, f) && Ends(view, ours, checkpoint, tips, c, g)
    ensures d == c && f == g
  {
  }

  lemma OnlyEnd(view: View, ours: seq<TipSet>, checkpoint: Option<TipSet>, tips: seq<TipSet>, d: nat, f: Fate)
    requires |tips| > 0 && Ends(view, ours, checkpoint, tips, d, f)
    ensures forall e :: EndsWith(view, ours, checkpoint, tips, e) <==> f == Fails(e)
  {
    forall e, c: nat | Ends(view, ours, checkpoint, tips, c, Fails(e)) ensures f == Fails(e) {
      EndIsUnique(view, ours, checkpoint, tips, d, f, c, Fails(e));
    }
  }

  /** What the two-pointer walk has shown of the depths above the one it stands at. */
  ghost predicate Passed(view: View, ours: seq<TipSet>, checkpoint: Option<TipSet>, tips: seq<TipSet>, cur: nat, drop: nat) {
    && |tips| > 0 && cur <= |tips| && 1 <= drop < |ours|
    && (forall j: nat :: j < drop ==> FateAt(view, ours, checkpoint, tips, j) == GoesOn)
    && (cur > 0 ==> ours[drop].height < tips[cur - 1].height)
  }

  /** One step along our chain, in the terms of the reference. */
  lemma PassedStep(view: View, ours: seq<TipSet>, checkpoint: Option<TipSet>, tips: seq<TipSet>, cur: nat, drop: nat)
    requires Linked(tips) && Linked(ours) && Passed(view, ours, checkpoint, tips, cur, drop) && cur < |tips|
    requires ours[drop].height != 0 && ours[drop].height >= tips[cur].height && ours[drop] !in tips
    ensures FateAt(view, ours, checkpoint, tips, drop) ==
      if drop >= FORK_LENGTH_THRESHOLD then Fails(ForkTooLong)
      else if checkpoint == Some(ours[drop]) then Fails(ForkCheckpoint)
      else if view.load(ours[drop].parents).None? then Fails(NoLocalTipSet)
      else GoesOn
    ensures FateAt(view, ours, checkpoint, tips, drop) == GoesOn && drop + 1 < |ours| ==> Passed(view, ours, checkpoint, tips, cur, drop + 1)
  {
    if cur < |tips| - 1 { HeightsFall(tips, cur, |tips| - 1); }
    if drop + 1 < |ours| { assert ours[drop].IsChildOf(ours[drop + 1]); }
  }

  /** Resolved exactly when the segment is there and meets our chain, and each error exactly when the reference ends with it. */
  ghost predicate Decided(dag: Dag, view: View, incoming: TipSet, known: TipSet, checkpoint: Option<TipSet>, r: Result<seq<TipSet>, ForkError>)
    requires dag.Valid() && dag.Has(incoming) && dag.Has(known) && view.Conforms(dag)
  {
    var fetched := view.blocks(incoming.parents, FORK_LENGTH_THRESHOLD);
    && (r.Ok? <==> fetched.Some? && MeetsSomewhere(view, Lineage(dag, known), checkpoint, fetched.value))
    && forall e :: ForkFails(dag, view, incoming, known, checkpoint, e) <==> r == Err(e)
  }

  /** Without a checkpoint to keep, no fork fails for one. */
  lemma NoCheckpointKept(dag: Dag, view: View, base: TipSet, known: TipSet)
    requires dag.Valid() && dag.Has(known) && view.Conforms(dag)
    ensures !ForkFails(dag, view, base, known, None, ForkCheckpoint)
  {
  }

  /**
    Succeeds exactly when the fetched segment meets our chain within the threshold, above height 0 and without
    dropping the checkpoint, if one counts; the fragment then ends at the fork point. Each error is returned exactly when the
    depth-by-depth reference ends with it.
   */
  method SyncFork(ghost dag: Dag, view: View, incoming: TipSet, known: TipSet,
                  checkpoint: Option<TipSet>, ignoreCheckpoint: bool)
    returns (r: Result<seq<TipSet>, ForkError>, ghost drop: nat)
    requires dag.Valid() && dag.Has(incoming) && dag.Has(known) && view.Conforms(dag)
    ensures ignoreCheckpoint ==> Decided(dag, view, incoming, known, None, r) && r != Err(ForkCheckpoint)
    ensures !ignoreCheckpoint ==> Decided(dag, view, incoming, known, checkpoint, r)
    ensures r.Ok? ==> Resolved(dag, incoming, known, if ignoreCheckpoint then None else checkpoint, r.value, drop)
  {
    drop := 1;
    var guard := if ignoreCheckpoint then None else checkpoint;
    if ignoreCheckpoint { NoCheckpointKept(dag, view, incoming, known); }
    ghost var ours := Lineage(dag, known);
    OursIsOurs(dag, view, known);
    if guard.Some? && guard.value == known {
      forall tips ensures !MeetsSomewhere(view, ours, guard, tips) { NeverStarts(view, ours, guard, tips); }
      return Err(ForkCheckpoint), drop;
    }
    var fetched := GetBlocks(view, incoming.parents, FORK_LENGTH_THRESHOLD);
    if fetched.None? { return Err(NoBlocks), drop; }
    r, drop := CompareFork(dag, view, incoming, known, guard, fetched.value);
  }

  /** The fetched segment against our chain, from the parent of our head down. */
  method CompareFork(ghost dag: Dag, view: View, ghost incoming: TipSet, known: TipSet, guard: Option<TipSet>, tips: seq<TipSet>)
    returns (r: Result<seq<TipSet>, ForkError>, ghost drop: nat)
    requires dag.Valid() && dag.Has(incoming) && dag.Has(known) && view.Conforms(dag) && guard != Some(known)
    requires Segment(dag, incoming.parents, FORK_LENGTH_THRESHOLD, tips)
    ensures r.Ok? ==> Resolved(dag, incoming, known, guard, r.value, drop)
    ensures r.Ok? <==> MeetsSomewhere(view, Lineage(dag, known), guard, tips)
    ensures forall e :: EndsWith(view, Lineage(dag, known), guard, tips, e) <==> r == Err(e)
  {
    drop := 1;
    ghost var ours := Lineage(dag, known);
    OursIsOurs(dag, view, known);
    var parent := view.load(known.parents);
    if parent.None? {
      NeverStarts(view, ours, guard, tips);
      OnlyEnd(view, ours, guard, tips, 0, Fails(NoLocalTipSet));
      return Err(NoLocalTipSet), drop;
    }
    r, drop := WalkFork(view, ours, guard, tips, parent.value);
    if r.Ok? { MeetingResolves(dag, view, incoming, known, guard, tips, |r.value| - 1, drop); }
    OnlyEnd(view, ours, guard, tips, drop, if r.Ok? then Met else Fails(r.error));
  }

  /** Our own chain as the walk sees it: what loads as a parent is the next tipset down. */
  ghost predicate OurChain(view: View, ours: seq<TipSet>) {
    && |ours| > 0 && Linked(ours)
    && (forall j :: 0 <= j < |ours| ==> ours[j].height >= 0)
    && (forall j :: 0 <= j < |ours| && view.load(ours[j].parents).Some? ==> Below(view, ours, j))
  }

  ghost predicate Below(view: View, ours: seq<TipSet>, j: nat)
    requires j < |ours|
  {
    j + 1 < |ours| && view.load(ours[j].parents) == Some(ours[j + 1]) && ours[j].parents == ours[j + 1].key
  }

  lemma OursIsOurs(dag: Dag, view: View, known: TipSet)
    requires dag.Valid() && dag.Has(known) && view.Conforms(dag)
    ensures OurChain(view, Lineage(dag, known))
  {
    var ours := Lineage(dag, known);
    LineageShape(dag, known);
    HeightsAreNatural(dag, ours);
    forall j | 0 <= j < |ours| && view.load(ours[j].parents).Some? ensures Below(view, ours, j) {
      LineageNext(dag, known, j);
    }
  }

  lemma NeverStarts(view: View, ours: seq<TipSet>, checkpoint: Option<TipSet>, tips: seq<TipSet>)
    requires OurChain(view, ours) && (checkpoint == Some(ours[0]) || view.load(ours[0].parents).None?)
    ensures !MeetsSomewhere(view, ours, checkpoint, tips)
  {
    if |ours| > 1 { assert ours[0].IsChildOf(ours[1]); }
    forall d: nat, a: nat | Meets(view, ours, checkpoint, tips, d, a) ensures false { }
  }

  /** Where the walk stands: nothing shared was passed, and the reference goes on at every depth above. */
  ghost predicate Standing(view: View, ours: seq<TipSet>, checkpoint: Option<TipSet>, tips: seq<TipSet>, cur: nat, drop: nat) {
    Walking(view, ours, checkpoint, tips, cur, drop) && Passed(view, ours, checkpoint, tips, cur, drop)
  }

  lemma StandingAtFirst(view: View, ours: seq<TipSet>, checkpoint: Option<TipSet>, tips: seq<TipSet>)
    requires OurChain(view, ours) && |tips| > 0 && checkpoint != Some(ours[0]) && view.load(ours[0].parents).Some?
    ensures Below(view, ours, 0) && Standing(view, ours, checkpoint, tips, 0, 1)
  {
  }

  lemma StandingAdvances(view: View, ours: seq<TipSet>, checkpoint: Option<TipSet>, tips: seq<TipSet>, cur: nat, drop: nat)
    requires OurChain(view, ours) && Standing(view, ours, checkpoint, tips, cur, drop) && cur < |tips|
    requires ours[drop].height < tips[cur].height
    ensures Standing(view, ours, checkpoint, tips, cur + 1, drop)
  {
    AdvanceFork(view, ours, checkpoint, tips, cur, drop);
  }

  /** Dropping our tipset ends the walk as the reference says, or leads one deeper. */
  lemma StandingDrops(view: View, ours: seq<TipSet>, checkpoint: Option<TipSet>, tips: seq<TipSet>, cur: nat, drop: nat)
    requires OurChain(view, ours) && Linked(tips) && Standing(view, ours, checkpoint, tips, cur, drop) && cur < |tips|
    requires ours[drop].height != 0 && ours[drop].height >= tips[cur].height && ours[drop] != tips[cur]
    ensures var fate :=
        if drop >= FORK_LENGTH_THRESHOLD then Fails(ForkTooLong)
        else if checkpoint == Some(ours[drop]) then Fails(ForkCheckpoint)
        else if view.load(ours[drop].parents).None? then Fails(NoLocalTipSet)
        else GoesOn;
      && (fate == GoesOn ==> Below(view, ours, drop) && Standing(view, ours, checkpoint, tips, cur, drop + 1))
      && (fate != GoesOn ==> Ends(view, ours, checkpoint, tips, drop, fate) && !MeetsSomewhere(view, ours, checkpoint, tips))
  {
    DropOurs(view, ours, checkpoint, tips, cur, drop);
    PassedStep(view, ours, checkpoint, tips, cur, drop);
    if drop + 1 < |ours| { assert ours[drop].IsChildOf(ours[drop + 1]); }
    if FateAt(view, ours, checkpoint, tips, drop) != GoesOn { CannotDropFurther(view, ours, checkpoint, tips, cur, drop); }
  }

  /** A segment that is walked past altogether lies above our chain from here on. */
  lemma OutOfTips(view: View, ours: seq<TipSet>, checkpoint: Option<TipSet>, tips: seq<TipSet>, drop: nat)
    requires Standing(view, ours, checkpoint, tips, |tips|, drop) && ours[drop].height != 0
    ensures Ends(view, ours, checkpoint, tips, drop, Fails(ForkTooLong)) && !MeetsSomewhere(view, ours, checkpoint, tips)
  {
    forall d: nat, a: nat | Meets(view, ours, checkpoint, tips, d, a) ensures false { }
  }

  lemma AtGenesis(view: View, ours: seq<TipSet>, checkpoint: Option<TipSet>, tips: seq<TipSet>, cur: nat, drop: nat)
    requires OurChain(view, ours) && Standing(view, ours, checkpoint, tips, cur, drop) && ours[drop].height == 0
    ensures Ends(view, ours, checkpoint, tips, drop, Fails(ForkedAtGenesis)) && !MeetsSomewhere(view, ours, checkpoint, tips)
  {
    NothingBelowZero(view, ours, checkpoint, tips, cur, drop);
  }

  /** The two-pointer walk. */
  method WalkFork(view: View, ghost ours: seq<TipSet>, guard: Option<TipSet>, tips: seq<TipSet>, parent: TipSet)
    returns (r: Result<seq<TipSet>, ForkError>, ghost drop: nat)
    requires OurChain(view, ours) && guard != Some(ours[0]) && view.load(ours[0].parents) == Some(parent)
    requires |tips| > 0 && Linked(tips)
    ensures r.Ok? <==> MeetsSomewhere(view, ours, guard, tips)
    ensures r.Ok? ==>
      && 0 < |r.value| <= |tips| && r.value == tips[..|r.value|]
      && Walking(view, ours, guard, tips, |r.value| - 1, drop) && Meets(view, ours, guard, tips, drop, |r.value| - 1)
    ensures Ends(view, ours, guard, tips, drop, if r.Ok? then Met else Fails(r.error))
  {
    drop := 1;
    StandingAtFirst(view, ours, guard, tips);
    var nts := parent;
    var forkLengthInHead := 1;
    var cur := 0;
    while cur < |tips|
      invariant forkLengthInHead == drop && Standing(view, ours, guard, tips, cur, drop) && nts == ours[drop]
      invariant cur == |tips| ==> nts.height != 0
      decreases |tips| - cur, |ours| - drop
    {
      if nts.height == 0 {
        AtGenesis(view, ours, guard, tips, cur, drop);
        return Err(ForkedAtGenesis), drop;
      }
      if nts == tips[cur] {
        assert Meets(view, ours, guard, tips, drop, cur);
        return Ok(tips[..cur + 1]), drop;
      }
      if nts.height < tips[cur].height {
        StandingAdvances(view, ours, guard, tips, cur, drop);
        cur := cur + 1;
      } else {
        StandingDrops(view, ours, guard, tips, cur, drop);
        forkLengthInHead := forkLengthInHead + 1;
        if forkLengthInHead > FORK_LENGTH_THRESHOLD { return Err(ForkTooLong), drop; }
        if guard.Some? && guard.value == nts { return Err(ForkCheckpoint), drop; }
        var next := view.load(nts.parents);
        if next.None? { return Err(NoLocalTipSet), drop; }
        nts := next.value;
        drop := drop + 1;
      }
    }
    OutOfTips(view, ours, guard, tips, drop);
    return Err(ForkTooLong), drop;
  }

  /** The segment fetched from a tipset's parent is a stretch of that tipset's own lineage. */
  lemma ForkSegment(dag: Dag, ts: TipSet, tips: seq<TipSet>)
    requires dag.Valid() && dag.Has(ts) && Segment(dag, ts.parents, |tips|, tips)
    ensures |tips| < |Lineage(dag, ts)| && tips == Lineage(dag, ts)[1..|tips| + 1]
  {
    assert dag.Has(tips[0]);
    ParentIsLower(dag, ts);
    LinkedIsLineage(dag, tips);
  }
}
